/** One subpipeline's execution: levels, skip rules, and what becomes of every task. */
module SubRun {
  import opened Wrappers
  import opened Graph
  import opened Listing
  import opened Levels
  import opened Dag
  import opened Trace
  import opened Scheduler

  /** Dependencies and failure policies; an empty policy falls back to the subpipeline's. */
  datatype Spec<T> = Spec(graph: Graph<T>, onFailure: map<T, string>, defaultOnFailure: string) {
    predicate Continues(n: T) {
      (if n in onFailure && onFailure[n] != "" then onFailure[n] else defaultOnFailure) == "continue"
    }
  }

  datatype Ledger<T> = Ledger(failed: set<T>, infra: set<T>, completed: set<T>)

  predicate Fails(o: Outcome) {
    o.Raised? || o.exitCode != 0
  }

  predicate InfraFails(o: Outcome) {
    o.Finished? && o.exitCode != 0 && o.infrastructure
  }

  /** An infrastructure failure always blocks; another failure unless either side says continue. */
  predicate BlockedBy<T(==)>(spec: Spec<T>, n: T, d: T, failed: set<T>, infra: set<T>) {
    d in failed && (d in infra || (!spec.Continues(n) && !spec.Continues(d)))
  }

  ghost predicate Blocked<T>(spec: Spec<T>, n: T, failed: set<T>, infra: set<T>) {
    n in spec.graph && exists d :: d in spec.graph[n] && BlockedBy(spec, n, d, failed, infra)
  }

  ghost predicate DependsOnInfra<T>(spec: Spec<T>, n: T, infra: set<T>) {
    n in spec.graph && exists d :: d in spec.graph[n] && d in infra
  }

  method ShouldSkip<T(==)>(spec: Spec<T>, n: T, ledger: Ledger<T>) returns (skip: bool)
    requires n in spec.graph
    ensures skip <==> Blocked(spec, n, ledger.failed, ledger.infra)
  {
    var deps := spec.graph[n];
    for i := 0 to |deps|
      invariant forall j :: 0 <= j < i ==> !BlockedBy(spec, n, deps[j], ledger.failed, ledger.infra)
    {
      if BlockedBy(spec, n, deps[i], ledger.failed, ledger.infra) {
        return true;
      }
    }
    skip := false;
  }

  method AnyInfra<T(==)>(spec: Spec<T>, n: T, infra: set<T>) returns (any: bool)
    requires n in spec.graph
    ensures any <==> DependsOnInfra(spec, n, infra)
  {
    var deps := spec.graph[n];
    for i := 0 to |deps|
      invariant forall j :: 0 <= j < i ==> deps[j] !in infra
    {
      if deps[i] in infra {
        return true;
      }
    }
    any := false;
  }

  /** The bookkeeping after some tasks were skipped and others reported. */
  ghost predicate Booked<T(!new)>(
    spec: Spec<T>, before: Ledger<T>, skipped: set<T>, reported: map<T, Outcome>, after: Ledger<T>
  ) {
    && (forall n :: n in after.failed <==> n in before.failed || n in skipped || (n in reported && Fails(reported[n])))
    && (forall n :: n in after.completed <==> n in before.completed || (n in reported && !Fails(reported[n])))
    && (forall n :: n in after.infra <==>
      || n in before.infra
      || (n in skipped && DependsOnInfra(spec, n, before.infra))
      || (n in reported && InfraFails(reported[n])))
  }

  /** Members of one level never depend on each other. */
  ghost predicate Independent<T>(g: Graph<T>, level: seq<T>) {
    forall n, d :: n in level && n in g && d in g[n] ==> d !in level
  }

  /** Sorts a level into the tasks to skip, booked at once, and the tasks to run. */
  method PickRunnable<T(==,!new)>(spec: Spec<T>, level: seq<T>, ledger: Ledger<T>)
    returns (toRun: seq<T>, after: Ledger<T>, ghost skipped: set<T>)
    requires Distinct(level) && Independent(spec.graph, level) && forall n :: n in level ==> n in spec.graph
    ensures Distinct(toRun) && skipped !! Elements(toRun) && skipped + Elements(toRun) == Elements(level)
    ensures forall n :: n in toRun ==> !Blocked(spec, n, ledger.failed, ledger.infra)
    ensures forall n :: n in skipped ==> Blocked(spec, n, ledger.failed, ledger.infra)
    ensures Booked(spec, ledger, skipped, map[], after)
    ensures Follows(level, toRun)
  {
    toRun, after, skipped := [], ledger, {};
    for i := 0 to |level|
      invariant Distinct(toRun) && skipped !! Elements(toRun) && skipped + Elements(toRun) == Elements(level[..i])
      invariant forall n :: n in toRun ==> !Blocked(spec, n, ledger.failed, ledger.infra)
      invariant forall n :: n in skipped ==> Blocked(spec, n, ledger.failed, ledger.infra)
      invariant Booked(spec, ledger, skipped, map[], after)
      invariant Follows(level, toRun) && Elements(toRun) <= Elements(level[..i])
    {
      hide Blocked, DependsOnInfra, Distinct, Follows;
      var n := level[i];
      ElementsSnoc(level, i);
      SameLevelIrrelevant(spec, level, i, ledger, skipped, after);
      FollowsOneMore(level, i, toRun, [n]);
      var skip := ShouldSkip(spec, n, after);
      if skip {
        var infra := AnyInfra(spec, n, after.infra);
        after := after.(failed := after.failed + {n}, infra := if infra then after.infra + {n} else after.infra);
        skipped := skipped + {n};
      } else {
        DistinctSnoc(toRun, n);
        toRun := toRun + [n];
      }
    }
    assert level[..|level|] == level;
  }

  lemma SameLevelIrrelevant<T(!new)>(
    spec: Spec<T>, level: seq<T>, i: nat, ledger: Ledger<T>, skipped: set<T>, after: Ledger<T>
  )
    requires i < |level| && level[i] in spec.graph && Independent(spec.graph, level)
    requires skipped <= Elements(level) && Booked(spec, ledger, skipped, map[], after)
    ensures Blocked(spec, level[i], after.failed, after.infra) <==> Blocked(spec, level[i], ledger.failed, ledger.infra)
    ensures DependsOnInfra(spec, level[i], after.infra) <==> DependsOnInfra(spec, level[i], ledger.infra)
  {
  }

  /** Which result belongs to which task: they are matched by position, as far as there are results. */
  ghost function Reports<T(!new)>(toRun: seq<T>, results: seq<Outcome>): (r: map<T, Outcome>)
    requires Distinct(toRun) && |results| <= |toRun|
    ensures r.Keys == Elements(toRun[..|results|])
    ensures forall i :: 0 <= i < |results| ==> toRun[i] in r && r[toRun[i]] == results[i]
  {
    if results == [] then map[]
    else
      var last := |results| - 1;
      ElementsSnoc(toRun, last);
      Reports(toRun, results[..last])[toRun[last] := results[last]]
  }

  lemma ReportsOneMore<T(!new)>(toRun: seq<T>, results: seq<Outcome>, i: nat)
    requires Distinct(toRun) && i < |results| <= |toRun|
    ensures Reports(toRun, results[..i + 1]) == Reports(toRun, results[..i])[toRun[i] := results[i]]
    ensures toRun[i] !in Reports(toRun, results[..i])
  {
    assert results[..i + 1][..i] == results[..i];
    ElementsSnoc(toRun, i);
  }

  /** The books after one more result. */
  function BookResult<T(==)>(ledger: Ledger<T>, n: T, o: Outcome): Ledger<T> {
    if Fails(o) then
      ledger.(failed := ledger.failed + {n}, infra := if InfraFails(o) then ledger.infra + {n} else ledger.infra)
    else
      ledger.(completed := ledger.completed + {n})
  }

  lemma BookedOneMore<T(!new)>(
    spec: Spec<T>, before: Ledger<T>, reported: map<T, Outcome>, after: Ledger<T>, n: T, o: Outcome
  )
    requires Booked(spec, before, {}, reported, after) && n !in reported
    ensures Booked(spec, before, {}, reported[n := o], BookResult(after, n, o))
  {
    hide DependsOnInfra;
  }

  /** Books the results in the order of the tasks, as far as there are results. */
  method Record<T(==,!new)>(spec: Spec<T>, toRun: seq<T>, results: seq<Outcome>, ledger: Ledger<T>)
    returns (after: Ledger<T>)
    requires Distinct(toRun) && |results| <= |toRun|
    ensures Booked(spec, ledger, {}, Reports(toRun, results), after)
  {
    hide Booked, Distinct, Reports;
    after := ledger;
    NothingBooked(spec, toRun, ledger);
    assert results[..0] == [];
    for i := 0 to |results|
      invariant Booked(spec, ledger, {}, Reports(toRun, results[..i]), after)
    {
      ReportsOneMore(toRun, results, i);
      BookedOneMore(spec, ledger, Reports(toRun, results[..i]), after, toRun[i], results[i]);
      var n := toRun[i];
      if Fails(results[i]) {
        after := after.(failed := after.failed + {n});
        if InfraFails(results[i]) {
          after := after.(infra := after.infra + {n});
        }
      } else {
        after := after.(completed := after.completed + {n});
      }
    }
    assert results[..|results|] == results;
  }

  lemma NothingBooked<T(!new)>(spec: Spec<T>, toRun: seq<T>, ledger: Ledger<T>)
    requires Distinct(toRun)
    ensures Booked(spec, ledger, {}, Reports(toRun, []), ledger)
  {
  }

  // ---------- the final bookkeeping, described without the loops ----------

  /**
   Every task of S is settled: it ran exactly when nothing it depends on blocks it, it failed when
   it was skipped or its result fails, and an infrastructure failure is passed on to skipped tasks.
   */
  ghost predicate Accounted<T(!new)>(spec: Spec<T>, S: set<T>, ledger: Ledger<T>, results: map<T, Outcome>) {
    && S <= spec.graph.Keys && results.Keys <= S
    && (forall n, d :: n in S && d in spec.graph[n] ==> d in S)
    && ledger.failed + ledger.completed == S && ledger.failed !! ledger.completed && ledger.infra <= ledger.failed
    && (forall n {:trigger Settled(spec, n, ledger, results)} :: n in S ==> Settled(spec, n, ledger, results))
  }

  ghost predicate Settled<T(!new)>(spec: Spec<T>, n: T, ledger: Ledger<T>, results: map<T, Outcome>) {
    && (n in results <==> !Blocked(spec, n, ledger.failed, ledger.infra))
    && (n in ledger.failed <==> (n in results ==> Fails(results[n])))
    && (n in ledger.infra <==> if n in results then InfraFails(results[n]) else DependsOnInfra(spec, n, ledger.infra))
  }

  lemma BlockedLater<T(!new)>(spec: Spec<T>, n: T, a: Ledger<T>, b: Ledger<T>)
    requires n in spec.graph
    requires forall d :: d in spec.graph[n] ==> (d in a.failed <==> d in b.failed) && (d in a.infra <==> d in b.infra)
    ensures Blocked(spec, n, a.failed, a.infra) <==> Blocked(spec, n, b.failed, b.infra)
    ensures DependsOnInfra(spec, n, a.infra) <==> DependsOnInfra(spec, n, b.infra)
  {
  }

  /** Which tasks may be settled next: unsettled ones whose dependencies are all settled. */
  ghost predicate Due<T(!new)>(spec: Spec<T>, S: set<T>, n: T) {
    n in spec.graph && n !in S && forall d :: d in spec.graph[n] ==> d in S
  }

  /** What a round of skips and results must look like to be booked on top of an account. */
  ghost predicate FairRound<T(!new)>(
    spec: Spec<T>, S: set<T>, before: Ledger<T>, skipped: set<T>, reported: map<T, Outcome>
  ) {
    && skipped !! reported.Keys
    && (forall n :: n in skipped || n in reported ==> Due(spec, S, n))
    && (forall n :: n in skipped ==> Blocked(spec, n, before.failed, before.infra))
    && (forall n :: n in reported ==> !Blocked(spec, n, before.failed, before.infra))
  }

  lemma SettledStays<T(!new)>(
    spec: Spec<T>, S: set<T>, before: Ledger<T>, results: map<T, Outcome>,
    skipped: set<T>, reported: map<T, Outcome>, after: Ledger<T>, n: T
  )
    requires Accounted(spec, S, before, results) && Booked(spec, before, skipped, reported, after)
    requires FairRound(spec, S, before, skipped, reported) && n in S
    ensures Settled(spec, n, after, results + reported)
  {
    assert Settled(spec, n, before, results);
    UnsettledUntouched(spec, S, before, results, skipped, reported, after, n);
    BlockedLater(spec, n, before, after);
    hide Blocked, DependsOnInfra;
    assert n !in skipped && n !in reported;
  }

  lemma UnsettledUntouched<T(!new)>(
    spec: Spec<T>, S: set<T>, before: Ledger<T>, results: map<T, Outcome>,
    skipped: set<T>, reported: map<T, Outcome>, after: Ledger<T>, n: T
  )
    requires Accounted(spec, S, before, results) && Booked(spec, before, skipped, reported, after)
    requires FairRound(spec, S, before, skipped, reported) && n in spec.graph
    requires forall d :: d in spec.graph[n] ==> d in S
    ensures forall d :: d in spec.graph[n] ==>
      (d in before.failed <==> d in after.failed) && (d in before.infra <==> d in after.infra)
  {
  }

  lemma SettledNow<T(!new)>(
    spec: Spec<T>, S: set<T>, before: Ledger<T>, results: map<T, Outcome>,
    skipped: set<T>, reported: map<T, Outcome>, after: Ledger<T>, n: T
  )
    requires Accounted(spec, S, before, results) && Booked(spec, before, skipped, reported, after)
    requires FairRound(spec, S, before, skipped, reported) && (n in skipped || n in reported)
    ensures Settled(spec, n, after, results + reported)
  {
  }

  /** Booking a fair round keeps the account. */
  lemma AccountGrows<T(!new)>(
    spec: Spec<T>, S: set<T>, before: Ledger<T>, results: map<T, Outcome>,
    skipped: set<T>, reported: map<T, Outcome>, after: Ledger<T>
  )
    requires Accounted(spec, S, before, results) && Booked(spec, before, skipped, reported, after)
    requires FairRound(spec, S, before, skipped, reported)
    ensures Accounted(spec, S + skipped + reported.Keys, after, results + reported)
  {
    var more := S + skipped + reported.Keys;
    forall n | n in more
      ensures Settled(spec, n, after, results + reported)
    {
      if n in S {
        SettledStays(spec, S, before, results, skipped, reported, after, n);
      } else {
        SettledNow(spec, S, before, results, skipped, reported, after, n);
      }
    }
    hide Settled, Blocked, DependsOnInfra;
    LedgerGrows(spec, S, before, skipped, reported, after);
    forall n, d | n in more && d in spec.graph[n]
      ensures d in more
    {
      assert n in S || Due(spec, S, n);
    }
  }

  lemma LedgerGrows<T(!new)>(
    spec: Spec<T>, S: set<T>, before: Ledger<T>, skipped: set<T>, reported: map<T, Outcome>, after: Ledger<T>
  )
    requires before.failed + before.completed == S && before.failed !! before.completed && before.infra <= before.failed
    requires S <= spec.graph.Keys
    requires Booked(spec, before, skipped, reported, after) && FairRound(spec, S, before, skipped, reported)
    ensures after.failed + after.completed == S + skipped + reported.Keys
    ensures after.failed !! after.completed && after.infra <= after.failed
    ensures S + skipped + reported.Keys <= spec.graph.Keys
  {
  }

  // ---------- how an execution ends ----------

  datatype SubOutcome<T> = DagFailed | Escaped | Done(ledger: Ledger<T>) {
    /** A DAG error and a non-empty set of failed tasks count as failure; an escaped exception as raised. */
    predicate Succeeded() { Done? && ledger.failed == {} }
  }

  /** What a subpipeline executes: sequential strategies chain the tasks, the parallel one does not. */
  ghost function SpecOf<T(!new)>(
    decls: seq<Decl<T>>, parallel: bool, onFailure: map<T, string>, defaultOnFailure: string
  ): Spec<T> {
    Spec(GraphFrom(if parallel then decls else Chained(decls)), onFailure, defaultOnFailure)
  }

  /** The books of an execution that was not cancelled: all tasks are settled by their own outcomes. */
  ghost predicate FinalBooks<T(!new)>(
    spec: Spec<T>, oracle: T -> Outcome, ledger: Ledger<T>, results: map<T, Outcome>
  ) {
    Accounted(spec, spec.graph.Keys, ledger, results) && forall n :: n in results ==> results[n] == oracle(n)
  }

  /** With every task settled by its own outcome, some task would run and raise. */
  ghost predicate Escapes<T(!new)>(spec: Spec<T>, oracle: T -> Outcome) {
    exists ledger, results :: FinalBooks(spec, oracle, ledger, results) && SomeResultRaised(results)
  }

  ghost predicate SomeResultRaised<T(!new)>(results: map<T, Outcome>) {
    exists n :: n in results && results[n].Raised?
  }

  /** How an execution that is not cancelled ends, told from the tasks as declared, the policies and the outcomes. */
  ghost predicate EndsAs<T(!new)>(
    decls: seq<Decl<T>>, parallel: bool, onFailure: map<T, string>, defaultOnFailure: string, oracle: T -> Outcome,
    outcome: SubOutcome<T>, results: map<T, Outcome>
  ) {
    if !Levellable(if parallel then decls else Chained(decls)) then
      outcome.DagFailed?
    else if !parallel && Escapes(SpecOf(decls, parallel, onFailure, defaultOnFailure), oracle) then
      outcome.Escaped?
    else
      && outcome.Done?
      && FinalBooks(SpecOf(decls, parallel, onFailure, defaultOnFailure), oracle, outcome.ledger, results)
  }

  /** The next task to run, after others were settled by their own outcomes, raises. */
  ghost predicate RaisesNext<T(!new)>(
    spec: Spec<T>, S: set<T>, ledger: Ledger<T>, results: map<T, Outcome>, oracle: T -> Outcome, n: T
  ) {
    && Accounted(spec, S, ledger, results) && (forall m :: m in results ==> results[m] == oracle(m))
    && Due(spec, S, n) && !Blocked(spec, n, ledger.failed, ledger.infra) && oracle(n).Raised?
  }

  ghost predicate RaisesSometime<T(!new)>(spec: Spec<T>, oracle: T -> Outcome) {
    exists S, ledger, results, n :: RaisesNext(spec, S, ledger, results, oracle, n)
  }

  // ---------- running one level ----------

  /** A result is the task's own, or a cancellation after the flag went up. */
  ghost predicate Honest<T>(n: T, o: Outcome, oracle: T -> Outcome, trace: seq<Event<T>>, cancelled: bool) {
    (Start(n) in trace && o == oracle(n)) || (cancelled && o == Finished(-1, false))
  }

  /** Some task that started ends in an exception. */
  ghost predicate SomeRaised<T(!new)>(trace: seq<Event<T>>, oracle: T -> Outcome) {
    exists n :: Start(n) in trace && !oracle(n).Finished?
  }

  lemma RaisedInEither<T(!new)>(a: seq<Event<T>>, b: seq<Event<T>>, oracle: T -> Outcome)
    ensures SomeRaised(a + b, oracle) <==> SomeRaised(a, oracle) || SomeRaised(b, oracle)
  {
    if n :| Start(n) in a && !oracle(n).Finished? {
      assert Start(n) in a + b;
    }
    if n :| Start(n) in b && !oracle(n).Finished? {
      assert Start(n) in a + b;
    }
  }

  /** A task that runs while nothing else does. */
  ghost function RunOne<T>(trace: seq<Event<T>>, n: T): seq<Event<T>> {
    trace + [Start(n)] + [Finish(n)]
  }

  lemma RaisedByOne<T(!new)>(trace: seq<Event<T>>, n: T, oracle: T -> Outcome)
    ensures SomeRaised(RunOne(trace, n), oracle) <==> SomeRaised(trace, oracle) || !oracle(n).Finished?
    ensures Start(n) in RunOne(trace, n) && forall e :: e in trace ==> e in RunOne(trace, n)
  {
    var more := [Start(n)] + [Finish(n)];
    assert RunOne(trace, n) == trace + more;
    assert more[0] == Start(n);
    RaisedInEither(trace, more, oracle);
  }

  /** One task after another; an exception leaves the subpipeline, a cancellation leaves the loop. */
  method RunSequentially<T(==,!new)>(runner: PipelineRunner, toRun: seq<T>, oracle: T -> Outcome)
    returns (results: seq<Outcome>, raised: bool, ghost trace: seq<Event<T>>)
    requires Distinct(toRun)
    modifies runner`cancelled
    ensures old(runner.cancelled) ==> runner.cancelled
    ensures runner.cancelled ==> old(runner.cancelled) || runner.requested
    ensures |results| <= |toRun| && IsBatch(trace, Elements(toRun)) && AtMostInFlight(trace, 1) && InFlight(trace) == 0
    ensures forall i :: 0 <= i < |results| ==> Start(toRun[i]) in trace && results[i] == oracle(toRun[i])
    ensures !raised ==> forall n :: Start(n) in trace ==> n in toRun[..|results|]
    ensures !raised && !runner.cancelled ==> |results| == |toRun|
    ensures raised <==> SomeRaised(trace, oracle)
    ensures raised ==> !runner.cancelled
    ensures old(runner.cancelled) ==> trace == []
    ensures Follows(toRun, TasksOf(trace))
  {
    hide *;
    results, raised, trace := [], false, [];
    NoneRan(toRun, oracle);
    for i := 0 to |toRun|
      invariant old(runner.cancelled) ==> runner.cancelled
      invariant runner.cancelled ==> old(runner.cancelled) || runner.requested
      invariant RanInOrder(toRun, i, results, trace, oracle)
      invariant old(runner.cancelled) ==> trace == []
    {
      RanMeans(toRun, i, results, trace, oracle);
      var cancelled := runner.CheckCancelSignal();
      if cancelled {
        return;
      }
      RanOneMore(toRun, i, results, trace, oracle);
      var o := oracle(toRun[i]);
      trace := RunOne(trace, toRun[i]);
      if !o.Finished? {
        raised := true;
        return;
      }
      results := results + [o];
    }
    RanMeans(toRun, |toRun|, results, trace, oracle);
  }

  /** The first i tasks have run, one after the other, and none of them raised. */
  ghost predicate RanInOrder<T(!new)>(
    toRun: seq<T>, i: nat, results: seq<Outcome>, trace: seq<Event<T>>, oracle: T -> Outcome
  ) {
    && |results| == i <= |toRun| && IsBatch(trace, Elements(toRun[..i])) && !SomeRaised(trace, oracle)
    && AtMostInFlight(trace, 1) && InFlight(trace) == 0
    && (forall j :: 0 <= j < i ==> Start(toRun[j]) in trace && results[j] == oracle(toRun[j]))
    && Follows(toRun, TasksOf(trace)) && Elements(TasksOf(trace)) <= Elements(toRun[..i])
  }

  lemma NoneRan<T(!new)>(toRun: seq<T>, oracle: T -> Outcome)
    ensures RanInOrder(toRun, 0, [], [], oracle)
  {
  }

  lemma RanMeans<T(!new)>(toRun: seq<T>, i: nat, results: seq<Outcome>, trace: seq<Event<T>>, oracle: T -> Outcome)
    requires RanInOrder(toRun, i, results, trace, oracle)
    ensures |results| == i <= |toRun| && IsBatch(trace, Elements(toRun)) && !SomeRaised(trace, oracle)
    ensures AtMostInFlight(trace, 1) && InFlight(trace) == 0
    ensures forall j :: 0 <= j < i ==> Start(toRun[j]) in trace && results[j] == oracle(toRun[j])
    ensures forall n :: Start(n) in trace ==> n in toRun[..i]
    ensures Follows(toRun, TasksOf(trace))
  {
    hide AtMostInFlight, InFlight, IsBatch, SomeRaised, Elements, Follows;
    BatchPrefix(trace, toRun, i);
  }

  lemma RanOneMore<T(!new)>(toRun: seq<T>, i: nat, results: seq<Outcome>, trace: seq<Event<T>>, oracle: T -> Outcome)
    requires Distinct(toRun) && i < |toRun| && RanInOrder(toRun, i, results, trace, oracle)
    ensures var longer := RunOne(trace, toRun[i]);
      && IsBatch(longer, Elements(toRun)) && AtMostInFlight(longer, 1) && InFlight(longer) == 0
      && (SomeRaised(longer, oracle) <==> !oracle(toRun[i]).Finished?)
      && (forall j :: 0 <= j < i ==> Start(toRun[j]) in longer && results[j] == oracle(toRun[j]))
      && Follows(toRun, TasksOf(longer))
      && (oracle(toRun[i]).Finished? ==> RanInOrder(toRun, i + 1, results + [oracle(toRun[i])], longer, oracle))
  {
    hide AtMostInFlight, InFlight, IsBatch, Distinct, SomeRaised, RunOne, Elements, Follows;
    OneMore(trace, toRun, i);
    RaisedByOne(trace, toRun[i], oracle);
    NextInOrder(trace, toRun, i);
  }

  lemma NextInOrder<T(!new)>(trace: seq<Event<T>>, toRun: seq<T>, i: nat)
    requires Distinct(toRun) && i < |toRun|
    requires Follows(toRun, TasksOf(trace)) && Elements(TasksOf(trace)) <= Elements(toRun[..i])
    ensures var tasks := TasksOf(RunOne(trace, toRun[i]));
      Follows(toRun, tasks) && Elements(tasks) <= Elements(toRun[..i + 1])
  {
    hide Follows, Distinct, Elements;
    FollowsOneMore(toRun, i, TasksOf(trace), [toRun[i], toRun[i]]);
    assert TasksOf(RunOne(trace, toRun[i])) == TasksOf(trace) + [toRun[i], toRun[i]];
  }

  lemma BatchPrefix<T(!new)>(trace: seq<Event<T>>, toRun: seq<T>, i: nat)
    requires i <= |toRun| && IsBatch(trace, Elements(toRun[..i]))
    ensures IsBatch(trace, Elements(toRun)) && forall n :: Start(n) in trace ==> n in toRun[..i]
  {
  }

  lemma OneMore<T(!new)>(trace: seq<Event<T>>, toRun: seq<T>, i: nat)
    requires Distinct(toRun) && i < |toRun| && IsBatch(trace, Elements(toRun[..i]))
    requires AtMostInFlight(trace, 1) && InFlight(trace) == 0
    ensures var longer := RunOne(trace, toRun[i]);
      && IsBatch(longer, Elements(toRun[..i + 1])) && IsBatch(longer, Elements(toRun))
      && AtMostInFlight(longer, 1) && InFlight(longer) == 0
  {
    hide AtMostInFlight, InFlight, WellFormed, Distinct, Elements;
    var n := toRun[i];
    ElementsSnoc(toRun, i);
    NotYetRun(trace, Elements(toRun[..i]), n);
    StartSnoc(trace, n);
    BoundSnoc(trace, Start(n), 1);
    var mid := trace + [Start(n)];
    assert mid[|trace|] == Start(n);
    FinishSnoc(mid, n);
    BoundSnoc(mid, Finish(n), 1);
    var longer := mid + [Finish(n)];
    assert longer[|mid|] == Finish(n);
    forall m | Start(m) in longer
      ensures Finish(m) in longer
    {
      assert m == n || Start(m) in trace;
    }
    assert OnlyTasks(longer, Elements(toRun[..i + 1]));
    BatchPrefix(longer, toRun, i + 1);
  }

  lemma NotYetRun<T(!new)>(trace: seq<Event<T>>, tasks: set<T>, n: T)
    requires OnlyTasks(trace, tasks) && n !in tasks
    ensures Start(n) !in trace && Finish(n) !in trace
  {
  }

  /** Runs the picked tasks by either strategy. */
  method RunTasks<T(==,!new)>(
    runner: PipelineRunner, toRun: seq<T>, parallel: bool, configured: Option<int>, oracle: T -> Outcome
  ) returns (results: seq<Outcome>, raised: bool, ghost trace: seq<Event<T>>)
    requires Distinct(toRun)
    modifies runner`cancelled
    ensures old(runner.cancelled) ==> runner.cancelled
    ensures runner.cancelled ==> old(runner.cancelled) || runner.requested
    ensures |results| <= |toRun| && IsBatch(trace, Elements(toRun))
    ensures AtMostInFlight(trace, InFlightLimit(parallel, configured, runner.TaskPermits())) && InFlight(trace) == 0
    ensures forall i :: 0 <= i < |results| ==> Honest(toRun[i], results[i], oracle, trace, runner.cancelled)
    ensures !raised ==> forall n :: Start(n) in trace ==> n in toRun[..|results|]
    ensures !raised && !runner.cancelled ==> |results| == |toRun|
    ensures raised <==> !parallel && SomeRaised(trace, oracle)
    ensures raised ==> !runner.cancelled
    ensures old(runner.cancelled) ==> trace == []
    ensures parallel || Follows(toRun, TasksOf(trace))
  {
    hide IsBatch, AtMostInFlight, InFlight, SomeRaised, Follows;
    if parallel {
      var run := new ParallelRun<T>(runner, toRun, EffectiveLimit(configured), oracle);
      results := run.Run();
      raised, trace := false, run.trace;
      assert toRun[..|toRun|] == toRun;
      StartsInside(trace, Elements(toRun));
    } else {
      results, raised, trace := RunSequentially(runner, toRun, oracle);
    }
  }

  lemma StartsInside<T(!new)>(trace: seq<Event<T>>, tasks: set<T>)
    requires IsBatch(trace, tasks)
    ensures forall n :: Start(n) in trace ==> n in tasks
  {
  }

  // ---------- the whole subpipeline ----------

  /** The nodes of the first k levels. */
  ghost function Below<T(!new)>(g: Graph<T>, k: nat): set<T> {
    set n | n in g && !HasChain(g, n, k)
  }

  lemma LevelFacts<T(!new)>(order: seq<T>, g: Graph<T>, levels: seq<seq<T>>, k: nat)
    requires Closed(g) && Distinct(order) && Elements(order) == g.Keys && IsLevelling(order, g, levels) && k < |levels|
    ensures Distinct(levels[k]) && Elements(levels[k]) == LevelSet(g, k) && Independent(g, levels[k])
    ensures forall n :: n in levels[k] ==> Due(Spec(g, map[], ""), Below(g, k), n)
    ensures Below(g, k + 1) == Below(g, k) + LevelSet(g, k)
    ensures NextBatch(g, Below(g, k), LevelSet(g, k))
  {
    assert levels[k] == LevelAt(order, g, k);
    RestrictMembers(order, LevelSet(g, k));
    forall n | n in g && !HasChain(g, n, k + 1)
      ensures n in LevelSet(g, k) || n in Below(g, k)
      ensures forall d :: d in g[n] ==> d in Below(g, k)
    {
    }
    forall n | n in Below(g, k)
      ensures !HasChain(g, n, k + 1)
    {
      if HasChain(g, n, k + 1) {
        ChainShorter(g, n, k);
      }
    }
    forall n, d | n in Below(g, k) + LevelSet(g, k) && d in LevelSet(g, k)
      ensures !Reach(g, n, d)
    {
      if Reach(g, n, d) {
        ReachLengthensChain(g, n, d, k);
      }
    }
  }

  lemma RoundKeepsAccount<T(!new)>(
    spec: Spec<T>, S: set<T>, before: Ledger<T>, results: map<T, Outcome>, level: set<T>,
    skipped: set<T>, toRun: set<T>, mid: Ledger<T>, reported: map<T, Outcome>, after: Ledger<T>
  )
    requires Accounted(spec, S, before, results)
    requires forall n :: n in level ==> Due(spec, S, n)
    requires skipped !! toRun && skipped + toRun == level && reported.Keys <= toRun
    requires forall n :: n in toRun ==> !Blocked(spec, n, before.failed, before.infra)
    requires forall n :: n in skipped ==> Blocked(spec, n, before.failed, before.infra)
    requires Booked(spec, before, skipped, map[], mid) && Booked(spec, mid, {}, reported, after)
    ensures Accounted(spec, S + skipped + reported.Keys, after, results + reported)
  {
    var nothing: map<T, Outcome> := map[];
    assert FairRound(spec, S, before, skipped, nothing);
    AccountGrows(spec, S, before, results, skipped, nothing, mid);
    assert S + skipped + nothing.Keys == S + skipped && results + nothing == results;
    forall n | n in reported
      ensures Due(spec, S + skipped, n)
      ensures !Blocked(spec, n, mid.failed, mid.infra)
    {
      assert Due(spec, S, n);
      UnsettledUntouched(spec, S, before, results, skipped, nothing, mid, n);
      BlockedLater(spec, n, before, mid);
    }
    AccountGrows(spec, S + skipped, mid, results, {}, reported, after);
    assert S + skipped + {} + reported.Keys == S + skipped + reported.Keys;
  }

  /** Where the execution stands between levels. */
  ghost predicate Standing<T(!new)>(
    spec: Spec<T>, k: nat, S: set<T>, ledger: Ledger<T>, results: map<T, Outcome>, trace: seq<Event<T>>,
    oracle: T -> Outcome, cancelled: bool
  ) {
    && Accounted(spec, S, ledger, results)
    && S <= Below(spec.graph, k) && (cancelled || S == Below(spec.graph, k))
    && IsBatch(trace, S) && Ordered(spec.graph, trace)
    && (forall n :: n in results ==> Honest(n, results[n], oracle, trace, cancelled))
    && (forall n :: Start(n) in trace ==> n in results)
  }

  /** One level: skip what is blocked, run the rest, book the results. */
  method ExecuteLevel<T(==,!new)>(
    runner: PipelineRunner, spec: Spec<T>, level: seq<T>, parallel: bool, configured: Option<int>, oracle: T -> Outcome,
    ledger: Ledger<T>, ghost k: nat, ghost S: set<T>, ghost results: map<T, Outcome>, ghost trace: seq<Event<T>>
  ) returns (
    raised: bool, after: Ledger<T>, ghost S': set<T>, ghost results': map<T, Outcome>, ghost more: seq<Event<T>>
  )
    requires Standing(spec, k, S, ledger, results, trace, oracle, false)
    requires Distinct(level) && Elements(level) == LevelSet(spec.graph, k) && Independent(spec.graph, level)
    requires forall n :: n in level ==> Due(spec, S, n)
    requires Below(spec.graph, k + 1) == Below(spec.graph, k) + LevelSet(spec.graph, k)
    requires NextBatch(spec.graph, Below(spec.graph, k), LevelSet(spec.graph, k))
    modifies runner`cancelled
    ensures old(runner.cancelled) ==> runner.cancelled
    ensures runner.cancelled ==> old(runner.cancelled) || runner.requested
    ensures AtMostInFlight(more, InFlightLimit(parallel, configured, runner.TaskPermits())) && InFlight(more) == 0
    ensures IsBatch(trace + more, Below(spec.graph, k + 1)) && Ordered(spec.graph, trace + more)
    ensures raised <==> !parallel && SomeRaised(more, oracle)
    ensures raised ==> !runner.cancelled && RaisesSometime(spec, oracle)
    ensures old(runner.cancelled) ==> more == []
    ensures !raised ==> Standing(spec, k + 1, S', after, results', trace + more, oracle, runner.cancelled)
    ensures IsBatch(more, Elements(level)) && (parallel || Follows(level, TasksOf(more)))
  {
    hide Booked, Blocked, DependsOnInfra, Below, LevelSet, HasChain, Honest, Due, Independent, Accounted;
    hide AtMostInFlight, InFlight, IsBatch, Ordered, Reach, SomeRaised, Follows;
    ghost var before, batch := Below(spec.graph, k), LevelSet(spec.graph, k);
    AllInGraph(spec, S, level);
    var toRun, mid;
    ghost var skipped;
    toRun, mid, skipped := PickRunnable(spec, level, ledger);
    var outcomes;
    outcomes, raised, more := RunTasks(runner, toRun, parallel, configured, oracle);
    if !parallel {
      TasksInside(more, Elements(toRun));
      FollowsThrough(level, toRun, TasksOf(more));
    }
    BatchWider(more, Elements(toRun), Elements(level));
    BatchKeepsOrder(spec.graph, trace, before, more, batch);
    after, S', results' := mid, S, results;
    if raised {
      RaisedInLevel(spec, S, ledger, results, toRun, trace, more, oracle);
      return;
    }
    ghost var reported := Reports(toRun, outcomes);
    after := Record(spec, toRun, outcomes, mid);
    PrefixElements(toRun, |outcomes|);
    RoundKeepsAccount(spec, S, ledger, results, batch, skipped, Elements(toRun), mid, reported, after);
    S', results' := S + skipped + reported.Keys, results + reported;
    HonestLater(results, reported, toRun, outcomes, trace, more, oracle, runner.cancelled);
    BatchNarrower(more, Elements(toRun), reported.Keys);
    BatchesTogether(trace, S, more, reported.Keys);
    BatchWider(trace + more, S + reported.Keys, S');
  }

  /** A task of this level that raised was the next to run. */
  lemma RaisedInLevel<T(!new)>(
    spec: Spec<T>, S: set<T>, ledger: Ledger<T>, results: map<T, Outcome>, toRun: seq<T>, trace: seq<Event<T>>,
    more: seq<Event<T>>, oracle: T -> Outcome
  )
    requires Accounted(spec, S, ledger, results)
    requires forall n :: n in results ==> Honest(n, results[n], oracle, trace, false)
    requires forall n :: n in Elements(toRun) ==> Due(spec, S, n)
    requires forall n :: n in toRun ==> !Blocked(spec, n, ledger.failed, ledger.infra)
    requires IsBatch(more, Elements(toRun)) && SomeRaised(more, oracle)
    ensures RaisesSometime(spec, oracle)
  {
    hide Accounted, Due, Blocked;
    var n :| Start(n) in more && !oracle(n).Finished?;
    assert Start(n).task in Elements(toRun);
    assert RaisesNext(spec, S, ledger, results, oracle, n);
  }

  lemma AllInGraph<T(!new)>(spec: Spec<T>, S: set<T>, level: seq<T>)
    requires forall n :: n in level ==> Due(spec, S, n)
    ensures forall n :: n in level ==> n in spec.graph
    ensures forall n :: n in Elements(level) ==> Due(spec, S, n)
  {
  }

  lemma BatchWider<T(!new)>(trace: seq<Event<T>>, a: set<T>, b: set<T>)
    requires IsBatch(trace, a) && a <= b
    ensures IsBatch(trace, b)
  {
  }

  lemma TasksInside<T(!new)>(trace: seq<Event<T>>, tasks: set<T>)
    requires IsBatch(trace, tasks)
    ensures Elements(TasksOf(trace)) <= tasks
  {
    forall i | 0 <= i < |trace|
      ensures TasksOf(trace)[i] in tasks
    {
      assert trace[i] in trace;
    }
  }

  lemma BatchNarrower<T(!new)>(trace: seq<Event<T>>, a: set<T>, b: set<T>)
    requires IsBatch(trace, a) && forall n :: Start(n) in trace ==> n in b
    ensures IsBatch(trace, b)
  {
  }

  lemma HonestLater<T(!new)>(
    results: map<T, Outcome>, reported: map<T, Outcome>, toRun: seq<T>, outcomes: seq<Outcome>,
    trace: seq<Event<T>>, more: seq<Event<T>>, oracle: T -> Outcome, cancelled: bool
  )
    requires forall n :: n in results ==> Honest(n, results[n], oracle, trace, false)
    requires forall n :: Start(n) in trace ==> n in results
    requires |outcomes| <= |toRun| && reported.Keys == Elements(toRun[..|outcomes|])
    requires forall i :: 0 <= i < |outcomes| ==> toRun[i] in reported && reported[toRun[i]] == outcomes[i]
    requires forall i :: 0 <= i < |outcomes| ==> Honest(toRun[i], outcomes[i], oracle, more, cancelled)
    requires forall n :: Start(n) in more ==> n in toRun[..|outcomes|]
    ensures forall n :: n in results + reported ==> Honest(n, (results + reported)[n], oracle, trace + more, cancelled)
    ensures forall n :: Start(n) in trace + more ==> n in results + reported
    ensures forall n :: Start(n) in more ==> n in reported
  {
  }

  lemma AtTheStart<T(!new)>(spec: Spec<T>, oracle: T -> Outcome, cancelled: bool, limit: nat)
    ensures Standing(spec, 0, {}, Ledger({}, {}, {}), map[], [], oracle, cancelled)
    ensures AtMostInFlight<T>([], limit) && InFlight<T>([]) == 0
    ensures !SomeRaised([], oracle)
  {
  }

  lemma LevelIsDue<T(!new)>(spec: Spec<T>, order: seq<T>, levels: seq<seq<T>>, k: nat)
    requires Closed(spec.graph) && Distinct(order) && Elements(order) == spec.graph.Keys
    requires IsLevelling(order, spec.graph, levels) && k < |levels|
    ensures Distinct(levels[k]) && Elements(levels[k]) == LevelSet(spec.graph, k) && Independent(spec.graph, levels[k])
    ensures forall n :: n in levels[k] ==> Due(spec, Below(spec.graph, k), n)
    ensures Below(spec.graph, k + 1) == Below(spec.graph, k) + LevelSet(spec.graph, k)
    ensures NextBatch(spec.graph, Below(spec.graph, k), LevelSet(spec.graph, k))
  {
    hide Distinct, Independent, NextBatch, HasChain, IsLevelling, Closed;
    LevelFacts(order, spec.graph, levels, k);
    forall n | n in levels[k]
      ensures Due(spec, Below(spec.graph, k), n)
    {
      assert Due(Spec(spec.graph, map[], ""), Below(spec.graph, k), n);
    }
  }

  lemma StandingUncancelled<T(!new)>(
    spec: Spec<T>, k: nat, S: set<T>, ledger: Ledger<T>, results: map<T, Outcome>, trace: seq<Event<T>>,
    oracle: T -> Outcome, was: bool, now: bool
  )
    requires Standing(spec, k, S, ledger, results, trace, oracle, was) && (was ==> now)
    ensures Standing(spec, k, S, ledger, results, trace, oracle, now)
    ensures !was ==> S == Below(spec.graph, k)
    ensures S <= spec.graph.Keys && IsBatch(trace, S) && Ordered(spec.graph, trace)
  {
  }

  /** Runs the levels in order until done, cancelled, or left by an exception. */
  method ExecuteLevels<T(==,!new)>(
    runner: PipelineRunner, spec: Spec<T>, ghost order: seq<T>, levels: seq<seq<T>>, parallel: bool,
    configured: Option<int>, oracle: T -> Outcome
  ) returns (outcome: SubOutcome<T>, ghost S: set<T>, ghost results: map<T, Outcome>, ghost trace: seq<Event<T>>)
    requires Closed(spec.graph) && Distinct(order) && Elements(order) == spec.graph.Keys
    requires IsLevelling(order, spec.graph, levels)
    modifies runner`cancelled
    ensures old(runner.cancelled) ==> runner.cancelled
    ensures runner.cancelled ==> old(runner.cancelled) || runner.requested
    ensures !outcome.DagFailed? && (outcome.Escaped? <==> !parallel && SomeRaised(trace, oracle))
    ensures outcome.Escaped? ==> !runner.cancelled && RaisesSometime(spec, oracle)
    ensures old(runner.cancelled) ==> trace == [] && outcome == Done(Ledger({}, {}, {}))
    ensures IsBatch(trace, spec.graph.Keys) && Ordered(spec.graph, trace)
    ensures AtMostInFlight(trace, InFlightLimit(parallel, configured, runner.TaskPermits()))
    ensures outcome.Done? ==> Accounted(spec, S, outcome.ledger, results)
    ensures outcome.Done? ==> forall n :: n in results ==> Honest(n, results[n], oracle, trace, runner.cancelled)
    ensures outcome.Done? ==> forall n :: Start(n) in trace ==> n in results
    ensures outcome.Done? && !runner.cancelled ==> S == spec.graph.Keys
    ensures InFlight(trace) == 0
    ensures parallel || Follows(Flat(levels), TasksOf(trace))
  {
    hide *;
    var ledger := Ledger({}, {}, {});
    ghost var limit := InFlightLimit(parallel, configured, runner.TaskPermits());
    S, results, trace := {}, map[], [];
    AtTheStart(spec, oracle, runner.cancelled, limit);
    NothingInOrder(levels);
    FlatIsDistinct(order, spec.graph, levels);
    for k := 0 to |levels|
      invariant old(runner.cancelled) ==> runner.cancelled
      invariant runner.cancelled ==> old(runner.cancelled) || runner.requested
      invariant Standing(spec, k, S, ledger, results, trace, oracle, runner.cancelled)
      invariant AtMostInFlight(trace, limit) && InFlight(trace) == 0
      invariant parallel || !SomeRaised(trace, oracle)
      invariant old(runner.cancelled) ==> trace == [] && ledger == Ledger({}, {}, {})
      invariant parallel || InLevels(levels, k, TasksOf(trace))
    {
      ghost var was := runner.cancelled;
      var cancelled := runner.CheckCancelSignal();
      StandingUncancelled(spec, k, S, ledger, results, trace, oracle, was, cancelled);
      if cancelled {
        Conclude(spec, k, S, ledger, results, trace, oracle, true);
        if !parallel {
          InLevelsMeans(levels, k, TasksOf(trace));
        }
        return Done(ledger), S, results, trace;
      }
      LevelIsDue(spec, order, levels, k);
      var raised, after;
      ghost var S', results', more;
      raised, after, S', results', more :=
        ExecuteLevel(runner, spec, levels[k], parallel, configured, oracle, ledger, k, S, results, trace);
      BoundConcat(trace, more, limit);
      RaisedInEither(trace, more, oracle);
      if !parallel {
        TasksInside(more, Elements(levels[k]));
        TasksConcat(trace, more);
        NextLevelInOrder(levels, k, TasksOf(trace), TasksOf(more));
        InLevelsMeans(levels, k + 1, TasksOf(trace + more));
      }
      trace := trace + more;
      if raised {
        BelowInside(spec, k + 1, trace);
        return Escaped, S, results, trace;
      }
      ledger, S, results := after, S', results';
    }
    Conclude(spec, |levels|, S, ledger, results, trace, oracle, runner.cancelled);
    EverythingBelow(order, spec.graph, levels);
    if !parallel {
      InLevelsMeans(levels, |levels|, TasksOf(trace));
    }
    outcome := Done(ledger);
  }

  /** The elements so far are of the first k levels, level by level and in each level's own order. */
  ghost predicate InLevels<K(!new)>(levels: seq<seq<K>>, k: nat, s: seq<K>)
    requires k <= |levels|
  {
    Follows(Flat(levels[..k]), s) && Elements(s) <= Elements(Flat(levels[..k]))
  }

  /** The execution order of a levelling: level by level, and in declaration order within a level. */
  ghost predicate LevelByLevel<K(!new)>(order: seq<K>, g: Graph<K>, s: seq<K>) {
    exists levels :: IsLevelling(order, g, levels) && Follows(Flat(levels), s)
  }

  lemma NothingInOrder<K(!new)>(levels: seq<seq<K>>)
    ensures InLevels(levels, 0, [])
  {
  }

  lemma NextLevelInOrder<K(!new)>(levels: seq<seq<K>>, k: nat, s: seq<K>, more: seq<K>)
    requires k < |levels| && Distinct(Flat(levels)) && InLevels(levels, k, s)
    requires Elements(more) <= Elements(levels[k]) && Follows(levels[k], more)
    ensures InLevels(levels, k + 1, s + more)
  {
    hide Follows, Distinct, Flat, Elements;
    FlatSnoc(levels, k);
    DistinctFlat(levels, k + 1);
    FollowsConcat(Flat(levels[..k]), s, levels[k], more);
    ElementsConcat(Flat(levels[..k]), levels[k]);
    ElementsConcat(s, more);
  }

  lemma {:induction false} DistinctFlat<K(!new)>(levels: seq<seq<K>>, k: nat)
    requires k <= |levels| && Distinct(Flat(levels))
    ensures Distinct(Flat(levels[..k])) && Flat(levels[..k]) <= Flat(levels)
    decreases |levels| - k
  {
    if k == |levels| {
      assert levels[..k] == levels;
    } else {
      DistinctFlat(levels, k + 1);
      FlatSnoc(levels, k);
      var prefix := Flat(levels[..k]);
      assert forall i :: 0 <= i < |prefix| ==> prefix[i] == (prefix + levels[k])[i];
    }
  }

  lemma ElementsConcat<K(!new)>(a: seq<K>, b: seq<K>)
    ensures Elements(a + b) == Elements(a) + Elements(b)
  {
  }

  lemma InLevelsMeans<K(!new)>(levels: seq<seq<K>>, k: nat, s: seq<K>)
    requires k <= |levels| && Distinct(Flat(levels)) && InLevels(levels, k, s)
    ensures Follows(Flat(levels), s)
  {
    hide Elements, Flat;
    DistinctFlat(levels, k);
    forall i, j, a, b | 0 <= i < j < |s| && 0 <= a < |Flat(levels)| && 0 <= b < |Flat(levels)|
      && Flat(levels)[a] == s[i] && Flat(levels)[b] == s[j]
      ensures a <= b
    {
      InPrefix(levels, k, s, i, a);
      InPrefix(levels, k, s, j, b);
    }
  }

  lemma InPrefix<K(!new)>(levels: seq<seq<K>>, k: nat, s: seq<K>, i: nat, a: nat)
    requires k <= |levels| && Distinct(Flat(levels)) && InLevels(levels, k, s)
    requires i < |s| && a < |Flat(levels)| && Flat(levels)[a] == s[i]
    ensures a < |Flat(levels[..k])| && Flat(levels[..k])[a] == Flat(levels)[a]
  {
    DistinctFlat(levels, k);
    assert s[i] in Elements(s);
    var b :| 0 <= b < |Flat(levels[..k])| && Flat(levels[..k])[b] == s[i];
    assert Flat(levels)[b] == Flat(levels)[a];
  }

  /** A levelling names every task once. */
  lemma {:induction false} FlatLevels<T(!new)>(order: seq<T>, g: Graph<T>, levels: seq<seq<T>>, k: nat)
    requires Closed(g) && Distinct(order) && Elements(order) == g.Keys && IsLevelling(order, g, levels)
    requires k <= |levels|
    ensures Distinct(Flat(levels[..k])) && Elements(Flat(levels[..k])) == Below(g, k)
  {
    hide IsLevelling, Independent, NextBatch, Due;
    if k > 0 {
      FlatLevels(order, g, levels, k - 1);
      LevelFacts(order, g, levels, k - 1);
      FlatSnoc(levels, k - 1);
      DistinctConcat(Flat(levels[..k - 1]), levels[k - 1]);
      ElementsConcat(Flat(levels[..k - 1]), levels[k - 1]);
    }
  }

  lemma DistinctConcat<T(!new)>(a: seq<T>, b: seq<T>)
    requires Distinct(a) && Distinct(b) && Elements(a) !! Elements(b)
    ensures Distinct(a + b)
  {
    forall i, j | 0 <= i < j < |a + b|
      ensures (a + b)[i] != (a + b)[j]
    {
      if i < |a| <= j {
        assert a[i] in Elements(a) && b[j - |a|] in Elements(b);
      }
    }
  }

  /**
   What the execution order means: nothing comes before something with fewer dependencies in a chain
   behind it, and what stands in the same level comes in declaration order.
   */
  lemma ExecutionOrder<K(!new)>(order: seq<K>, g: Graph<K>, s: seq<K>, i: nat, j: nat, a: nat, b: nat)
    requires Closed(g) && Distinct(order) && Elements(order) == g.Keys && LevelByLevel(order, g, s)
    requires i < j < |s| && a < |order| && b < |order| && order[a] == s[i] && order[b] == s[j]
    ensures forall k: nat :: HasChain(g, s[i], k) ==> HasChain(g, s[j], k)
    ensures (exists k: nat :: AtLevel(g, s[i], k) && AtLevel(g, s[j], k)) ==> a <= b
  {
    hide IsLevelling, Follows, Closed, Distinct, HasChain, Elements;
    var levels :| IsLevelling(order, g, levels) && Follows(Flat(levels), s);
    assert s[i] in Elements(order) && s[j] in Elements(order);
    forall k: nat | HasChain(g, s[i], k)
      ensures HasChain(g, s[j], k)
    {
      if !HasChain(g, s[j], k) {
        LevelsAscend(order, g, levels, s, i, j, k);
      }
    }
    if k: nat :| AtLevel(g, s[i], k) && AtLevel(g, s[j], k) {
      SameLevelOrder(order, g, levels, s, i, j, k, a, b);
    }
  }

  lemma LevelsAscend<K(!new)>(
    order: seq<K>, g: Graph<K>, levels: seq<seq<K>>, s: seq<K>, i: nat, j: nat, k: nat
  )
    requires Closed(g) && Distinct(order) && Elements(order) == g.Keys && IsLevelling(order, g, levels)
    requires i < |s| && j < |s| && Follows(Flat(levels), s) && s[i] in g && s[j] in g
    requires HasChain(g, s[i], k) && !HasChain(g, s[j], k)
    ensures j < i
  {
    hide IsLevelling, Closed, HasChain, Flat;
    EmptyAbove(order, g, levels, s[i], k);
    FlatIsDistinct(order, g, levels);
    FlatLevels(order, g, levels, k);
    FlatLevels(order, g, levels, |levels|);
    EverythingBelow(order, g, levels);
    assert levels[..|levels|] == levels;
    DistinctFlat(levels, k);
    var all, prefix := Flat(levels), Flat(levels[..k]);
    assert s[i] in Elements(all) && s[j] in Elements(prefix);
    var x :| 0 <= x < |all| && all[x] == s[i];
    var y :| 0 <= y < |prefix| && prefix[y] == s[j];
    assert s[i] !in Elements(prefix);
    assert x < |prefix| ==> prefix[x] == s[i];
    assert all[y] == s[j];
  }

  lemma EmptyAbove<K(!new)>(order: seq<K>, g: Graph<K>, levels: seq<seq<K>>, n: K, k: nat)
    requires IsLevelling(order, g, levels) && HasChain(g, n, k) && n in g
    ensures k < |levels|
  {
    EmptyChainSet(g, |levels|, n);
    if |levels| <= k {
      ChainShorterBy(g, n, |levels|, k);
    }
  }

  lemma {:induction false} ChainShorterBy<K(!new)>(g: Graph<K>, n: K, j: nat, k: nat)
    requires j <= k && HasChain(g, n, k)
    ensures HasChain(g, n, j)
    decreases k
  {
    if j < k {
      ChainShorter(g, n, k - 1);
      ChainShorterBy(g, n, j, k - 1);
    }
  }

  lemma SameLevelOrder<K(!new)>(
    order: seq<K>, g: Graph<K>, levels: seq<seq<K>>, s: seq<K>, i: nat, j: nat, k: nat, a: nat, b: nat
  )
    requires Closed(g) && Distinct(order) && Elements(order) == g.Keys && IsLevelling(order, g, levels)
    requires i < j < |s| && Follows(Flat(levels), s) && s[i] in g && s[j] in g
    requires AtLevel(g, s[i], k) && AtLevel(g, s[j], k)
    requires a < |order| && b < |order| && order[a] == s[i] && order[b] == s[j]
    ensures a <= b
  {
    hide IsLevelling, Closed, HasChain, Flat, Follows, Distinct;
    EmptyAbove(order, g, levels, s[i], k);
    FlatIsDistinct(order, g, levels);
    FlatSnoc(levels, k);
    DistinctFlat(levels, k + 1);
    LevelMembers(order, g, levels, k);
    RestrictFollows(order, LevelSet(g, k));
    OrderWithin(order, Flat(levels[..k]), levels[k], Flat(levels), s, i, j, a, b);
  }

  /** Of two elements of one part of the order, the one that comes first stands first in that part. */
  lemma OrderWithin<K(!new)>(
    order: seq<K>, before: seq<K>, level: seq<K>, all: seq<K>, s: seq<K>, i: nat, j: nat, a: nat, b: nat
  )
    requires before + level <= all && Follows(all, s) && Distinct(order) && Follows(order, level)
    requires i < j < |s| && s[i] in Elements(level) && s[j] in Elements(level)
    requires a < |order| && b < |order| && order[a] == s[i] && order[b] == s[j]
    ensures a <= b
  {
    var x :| 0 <= x < |level| && level[x] == s[i];
    var y :| 0 <= y < |level| && level[y] == s[j];
    assert (before + level)[|before| + x] == s[i] && (before + level)[|before| + y] == s[j];
    assert all[|before| + x] == s[i] && all[|before| + y] == s[j];
    assert x <= y;
  }

  lemma LevelMembers<K(!new)>(order: seq<K>, g: Graph<K>, levels: seq<seq<K>>, k: nat)
    requires Distinct(order) && Elements(order) == g.Keys && IsLevelling(order, g, levels) && k < |levels|
    ensures levels[k] == Restrict(order, LevelSet(g, k)) && Elements(levels[k]) == LevelSet(g, k)
  {
    assert levels[k] == LevelAt(order, g, k);
    RestrictMembers(order, LevelSet(g, k));
  }

  lemma FlatIsDistinct<T(!new)>(order: seq<T>, g: Graph<T>, levels: seq<seq<T>>)
    requires Closed(g) && Distinct(order) && Elements(order) == g.Keys && IsLevelling(order, g, levels)
    ensures Distinct(Flat(levels))
  {
    FlatLevels(order, g, levels, |levels|);
    assert levels[..|levels|] == levels;
  }

  lemma BelowInside<T(!new)>(spec: Spec<T>, k: nat, trace: seq<Event<T>>)
    requires IsBatch(trace, Below(spec.graph, k))
    ensures IsBatch(trace, spec.graph.Keys)
  {
  }

  lemma Conclude<T(!new)>(
    spec: Spec<T>, k: nat, S: set<T>, ledger: Ledger<T>, results: map<T, Outcome>, trace: seq<Event<T>>,
    oracle: T -> Outcome, cancelled: bool
  )
    requires Standing(spec, k, S, ledger, results, trace, oracle, cancelled)
    ensures Accounted(spec, S, ledger, results) && IsBatch(trace, spec.graph.Keys) && Ordered(spec.graph, trace)
    ensures forall n :: n in results ==> Honest(n, results[n], oracle, trace, cancelled)
    ensures forall n :: Start(n) in trace ==> n in results
    ensures !cancelled ==> S == Below(spec.graph, k)
  {
  }

  lemma EverythingBelow<T(!new)>(order: seq<T>, g: Graph<T>, levels: seq<seq<T>>)
    requires IsLevelling(order, g, levels)
    ensures Below(g, |levels|) == g.Keys
  {
    forall n | n in g
      ensures !HasChain(g, n, |levels|)
    {
      EmptyChainSet(g, |levels|, n);
    }
  }

  /**
   A subpipeline's execution, from the declared tasks to the outcome. Sequential strategies chain
   undeclared tasks first; the skip rules then read the dependencies the tasks have been given.
   */
  method ExecuteSubpipeline<T(==,!new)>(
    runner: PipelineRunner, tasks: seq<ResolvedTask<T>>, onFailure: map<T, string>, defaultOnFailure: string,
    parallel: bool, configured: Option<int>, oracle: T -> Outcome
  ) returns (outcome: SubOutcome<T>, ghost S: set<T>, ghost results: map<T, Outcome>, ghost trace: seq<Event<T>>)
    requires Distinct(Names(Decls(tasks)))
    modifies tasks, runner`cancelled
    ensures old(runner.cancelled) ==> runner.cancelled
    ensures runner.cancelled ==> old(runner.cancelled) || runner.requested
    ensures Decls(tasks) == if parallel then old(Decls(tasks)) else Chained(old(Decls(tasks)))
    ensures outcome.DagFailed? <==> !Levellable(Decls(tasks))
    ensures outcome.DagFailed? ==> trace == []
    ensures InFlight(trace) == 0
    ensures outcome.Escaped? <==> !outcome.DagFailed? && !parallel && SomeRaised(trace, oracle)
    ensures !outcome.DagFailed? ==>
      && OnlyTasks(trace, GraphFrom(Decls(tasks)).Keys)
      && IsBatch(trace, GraphFrom(Decls(tasks)).Keys) && Ordered(GraphFrom(Decls(tasks)), trace)
      && AtMostInFlight(trace, InFlightLimit(parallel, configured, runner.TaskPermits()))
    ensures outcome.Done? ==>
      && Accounted(Spec(GraphFrom(Decls(tasks)), onFailure, defaultOnFailure), S, outcome.ledger, results)
      && (forall n :: n in results ==> Honest(n, results[n], oracle, trace, runner.cancelled))
      && (forall n :: Start(n) in trace ==> n in results)
      && (!runner.cancelled ==> S == GraphFrom(Decls(tasks)).Keys)
    ensures !runner.cancelled ==>
      EndsAs(old(Decls(tasks)), parallel, onFailure, defaultOnFailure, oracle, outcome, results)
    ensures outcome.Escaped? ==> !runner.cancelled
    ensures old(runner.cancelled) ==> trace == [] && (outcome.DagFailed? || outcome == Done(Ledger({}, {}, {})))
    ensures !parallel && !outcome.DagFailed? ==>
      LevelByLevel(Names(Decls(tasks)), GraphFrom(Decls(tasks)), TasksOf(trace))
  {
    hide *;
    S, results, trace := {}, map[], [];
    NothingInFlight<T>();
    var dag := DAG<T>.Create(tasks, !parallel);
    LevellableIff(Decls(tasks));
    if dag.Failure? {
      BadDagEnds(old(Decls(tasks)), parallel, onFailure, defaultOnFailure, oracle, results);
      return DagFailed, S, results, trace;
    }
    var levels := dag.value.GetExecutionLevels();
    DagIsSound(dag.value);
    if levels.Failure? {
      BadDagEnds(old(Decls(tasks)), parallel, onFailure, defaultOnFailure, oracle, results);
      return DagFailed, S, results, trace;
    }
    var spec := Spec(dag.value.reverseAdjacency, onFailure, defaultOnFailure);
    outcome, S, results, trace :=
      ExecuteLevels(runner, spec, dag.value.taskOrder, levels.value, parallel, configured, oracle);
    BatchIsInside(trace, spec.graph.Keys);
    if !parallel {
      InThatOrder(dag.value.taskOrder, spec.graph, levels.value, TasksOf(trace));
    }
    SpecOfIs(old(Decls(tasks)), parallel, onFailure, defaultOnFailure);
    if outcome.Escaped? {
      RaisesIsEscape(spec, oracle);
      EscapeEnds(old(Decls(tasks)), onFailure, defaultOnFailure, oracle, results);
    } else if !runner.cancelled {
      HonestIsFinal(spec, oracle, outcome.ledger, results, trace);
      if !parallel {
        NothingRaised(spec, oracle, outcome.ledger, results, trace);
      }
      DoneEnds(old(Decls(tasks)), parallel, onFailure, defaultOnFailure, oracle, outcome.ledger, results);
    }
  }

  lemma InThatOrder<K(!new)>(order: seq<K>, g: Graph<K>, levels: seq<seq<K>>, s: seq<K>)
    requires IsLevelling(order, g, levels) && Follows(Flat(levels), s)
    ensures LevelByLevel(order, g, s)
  {
  }

  lemma BadDagEnds<T(!new)>(
    decls: seq<Decl<T>>, parallel: bool, onFailure: map<T, string>, defaultOnFailure: string, oracle: T -> Outcome,
    results: map<T, Outcome>
  )
    requires !Levellable(if parallel then decls else Chained(decls))
    ensures EndsAs(decls, parallel, onFailure, defaultOnFailure, oracle, DagFailed, results)
  {
  }

  lemma EscapeEnds<T(!new)>(
    decls: seq<Decl<T>>, onFailure: map<T, string>, defaultOnFailure: string, oracle: T -> Outcome,
    results: map<T, Outcome>
  )
    requires Levellable(Chained(decls)) && Escapes(SpecOf(decls, false, onFailure, defaultOnFailure), oracle)
    ensures EndsAs(decls, false, onFailure, defaultOnFailure, oracle, Escaped, results)
  {
  }

  lemma DoneEnds<T(!new)>(
    decls: seq<Decl<T>>, parallel: bool, onFailure: map<T, string>, defaultOnFailure: string, oracle: T -> Outcome,
    ledger: Ledger<T>, results: map<T, Outcome>
  )
    requires Levellable(if parallel then decls else Chained(decls))
    requires FinalBooks(SpecOf(decls, parallel, onFailure, defaultOnFailure), oracle, ledger, results)
    requires parallel || !Escapes(SpecOf(decls, parallel, onFailure, defaultOnFailure), oracle)
    ensures EndsAs(decls, parallel, onFailure, defaultOnFailure, oracle, Done(ledger), results)
  {
  }

  /** If the next task to run raises, it runs and raises in the final books as well. */
  lemma RaisesIsEscape<T(!new)>(spec: Spec<T>, oracle: T -> Outcome)
    requires Closed(spec.graph) && !Cyclic(spec.graph) && RaisesSometime(spec, oracle)
    ensures Escapes(spec, oracle)
  {
    var S, ledger, results, n :| RaisesNext(spec, S, ledger, results, oracle, n);
    var final, all := BooksExist(spec, oracle);
    var rank := AcyclicIsRanked(spec.graph);
    forall d | d in spec.graph[n]
      ensures d in ledger.failed <==> d in final.failed
      ensures d in ledger.infra <==> d in final.infra
    {
      SameFate(spec, S, spec.graph.Keys, oracle, rank, ledger, results, final, all, d);
    }
    BlockedLater(spec, n, ledger, final);
    hide Blocked, DependsOnInfra, Ranked, Cyclic;
    assert Settled(spec, n, final, all);
    assert n in all && all[n].Raised?;
  }

  /** An uncancelled execution in which no started task raised: neither does one in the final books. */
  lemma NothingRaised<T(!new)>(
    spec: Spec<T>, oracle: T -> Outcome, ledger: Ledger<T>, results: map<T, Outcome>, trace: seq<Event<T>>
  )
    requires Closed(spec.graph) && !Cyclic(spec.graph) && FinalBooks(spec, oracle, ledger, results)
    requires forall n :: n in results ==> Honest(n, results[n], oracle, trace, false)
    requires !SomeRaised(trace, oracle)
    ensures !Escapes(spec, oracle)
  {
    hide FinalBooks, Cyclic;
    forall a, ra | FinalBooks(spec, oracle, a, ra)
      ensures !SomeResultRaised(ra)
    {
      ScheduleDoesNotMatter(spec, oracle, a, ra, ledger, results);
    }
  }

  lemma NothingInFlight<T>()
    ensures InFlight<T>([]) == 0
  {
  }

  lemma HonestIsFinal<T(!new)>(
    spec: Spec<T>, oracle: T -> Outcome, ledger: Ledger<T>, results: map<T, Outcome>, trace: seq<Event<T>>
  )
    requires Accounted(spec, spec.graph.Keys, ledger, results)
    requires forall n :: n in results ==> Honest(n, results[n], oracle, trace, false)
    ensures FinalBooks(spec, oracle, ledger, results)
  {
  }

  lemma EndMeans<T(!new)>(
    decls: seq<Decl<T>>, parallel: bool, onFailure: map<T, string>, defaultOnFailure: string, oracle: T -> Outcome,
    ledger: Ledger<T>, results: map<T, Outcome>
  )
    requires EndsAs(decls, parallel, onFailure, defaultOnFailure, oracle, Done(ledger), results)
    ensures FinalBooks(SpecOf(decls, parallel, onFailure, defaultOnFailure), oracle, ledger, results)
  {
  }

  lemma SpecOfIs<T(!new)>(decls: seq<Decl<T>>, parallel: bool, onFailure: map<T, string>, defaultOnFailure: string)
    ensures SpecOf(decls, parallel, onFailure, defaultOnFailure) ==
      Spec(GraphFrom(if parallel then decls else Chained(decls)), onFailure, defaultOnFailure)
  {
  }

  lemma DagIsSound<T(!new)>(dag: DAG<T>)
    requires dag.Valid()
    ensures Closed(dag.reverseAdjacency) && Distinct(dag.taskOrder)
    ensures Elements(dag.taskOrder) == dag.reverseAdjacency.Keys
  {
  }

  lemma BatchIsInside<T(!new)>(trace: seq<Event<T>>, tasks: set<T>)
    requires IsBatch(trace, tasks)
    ensures OnlyTasks(trace, tasks)
  {
  }

  // ---------- what the account means ----------

  /**
   The final books, task by task. A task runs exactly when each failed task it depends on failed by itself, not by
   its infrastructure, and the policy of either of the two says continue; an empty policy is the subpipeline's.
   */
  lemma FinalBooksMean<T(!new)>(
    spec: Spec<T>, oracle: T -> Outcome, ledger: Ledger<T>, results: map<T, Outcome>, n: T
  )
    requires FinalBooks(spec, oracle, ledger, results) && n in spec.graph
    ensures n in results <==> forall d :: d in spec.graph[n] && d in ledger.failed ==>
      && d !in ledger.infra
      && ((if n in spec.onFailure && spec.onFailure[n] != "" then spec.onFailure[n] else spec.defaultOnFailure)
            == "continue" ||
          (if d in spec.onFailure && spec.onFailure[d] != "" then spec.onFailure[d] else spec.defaultOnFailure)
            == "continue")
    ensures n in results ==> results[n] == oracle(n)
    ensures n in ledger.failed <==> n !in results || oracle(n) == Raised || oracle(n).exitCode != 0
    ensures n in ledger.completed <==> n in results && oracle(n) != Raised && oracle(n).exitCode == 0
    ensures n in ledger.infra <==>
      if n in results then oracle(n) != Raised && oracle(n).exitCode != 0 && oracle(n).infrastructure
      else exists d :: d in spec.graph[n] && d in ledger.infra
  {
    assert Settled(spec, n, ledger, results);
  }

  /** An infrastructure failure reaches every task that depends on it, whatever the policies say. */
  lemma {:induction false} InfraBlocksAlways<T(!new)>(
    spec: Spec<T>, S: set<T>, ledger: Ledger<T>, results: map<T, Outcome>, n: T, d: T, k: nat
  )
    requires Accounted(spec, S, ledger, results) && n in S && d in ledger.infra
    requires k > 0 && Steps(spec.graph, n, d, k)
    ensures n !in results && n in ledger.infra && n in ledger.failed
  {
    var m :| m in spec.graph[n] && Steps(spec.graph, m, d, k - 1);
    if k > 1 {
      InfraBlocksAlways(spec, S, ledger, results, m, d, k - 1);
    }
    assert BlockedBy(spec, n, m, ledger.failed, ledger.infra);
    assert Settled(spec, n, ledger, results);
  }

  lemma InfraBlocks<T(!new)>(
    spec: Spec<T>, S: set<T>, ledger: Ledger<T>, results: map<T, Outcome>, n: T, d: T
  )
    requires Accounted(spec, S, ledger, results) && n in S && d in ledger.infra && Reach(spec.graph, n, d)
    ensures n !in results && n in ledger.infra && n in ledger.failed
  {
    var k: nat :| k > 0 && Steps(spec.graph, n, d, k);
    InfraBlocksAlways(spec, S, ledger, results, n, d, k);
  }

  lemma {:induction false} RanMeansAllCompleted<T(!new)>(
    spec: Spec<T>, S: set<T>, ledger: Ledger<T>, results: map<T, Outcome>, n: T, d: T, k: nat
  )
    requires Accounted(spec, S, ledger, results) && n in results
    requires forall m :: m in spec.graph ==> !spec.Continues(m)
    requires k > 0 && Steps(spec.graph, n, d, k)
    ensures d in ledger.completed
  {
    var m :| m in spec.graph[n] && Steps(spec.graph, m, d, k - 1);
    assert Settled(spec, n, ledger, results);
    assert m in S;
    assert Settled(spec, m, ledger, results);
    assert !BlockedBy(spec, n, m, ledger.failed, ledger.infra);
    if k > 1 {
      RanMeansAllCompleted(spec, S, ledger, results, m, d, k - 1);
    }
  }

  /** When no policy says continue, a task runs exactly when everything it depends on completed. */
  lemma RunsIffDependenciesCompleted<T(!new)>(
    spec: Spec<T>, S: set<T>, ledger: Ledger<T>, results: map<T, Outcome>, n: T
  )
    requires Accounted(spec, S, ledger, results) && n in S
    requires forall m :: m in spec.graph ==> !spec.Continues(m)
    ensures n in results <==> forall d :: Reach(spec.graph, n, d) ==> d in ledger.completed
  {
    if n in results {
      forall d | Reach(spec.graph, n, d)
        ensures d in ledger.completed
      {
        var k: nat :| k > 0 && Steps(spec.graph, n, d, k);
        RanMeansAllCompleted(spec, S, ledger, results, n, d, k);
      }
    } else {
      assert Settled(spec, n, ledger, results);
      var d :| d in spec.graph[n] && BlockedBy(spec, n, d, ledger.failed, ledger.infra);
      ReachEdge(spec.graph, n, d);
      assert d !in ledger.completed;
    }
  }

  /** Two accounts with the same outcomes agree on a task in both once they agree below it. */
  lemma {:induction false} SameFate<T(!new)>(
    spec: Spec<T>, S: set<T>, S': set<T>, oracle: T -> Outcome, rank: map<T, nat>,
    a: Ledger<T>, ra: map<T, Outcome>, b: Ledger<T>, rb: map<T, Outcome>, n: T
  )
    requires Accounted(spec, S, a, ra) && Accounted(spec, S', b, rb) && Ranked(spec.graph, rank) && n in S && n in S'
    requires forall m :: m in ra ==> ra[m] == oracle(m)
    requires forall m :: m in rb ==> rb[m] == oracle(m)
    ensures n in ra <==> n in rb
    ensures n in a.failed <==> n in b.failed
    ensures n in a.infra <==> n in b.infra
    decreases rank[n]
  {
    forall d | d in spec.graph[n]
      ensures d in a.failed <==> d in b.failed
      ensures d in a.infra <==> d in b.infra
    {
      SameFate(spec, S, S', oracle, rank, a, ra, b, rb, d);
    }
    BlockedLater(spec, n, a, b);
    hide Blocked, DependsOnInfra, Ranked;
    assert Settled(spec, n, a, ra) && Settled(spec, n, b, rb);
  }

  /**
   The final books depend on the dependencies and the tasks' own outcomes only: not on the limit, or
   the order in which tasks complete.
   */
  lemma ScheduleDoesNotMatter<T(!new)>(
    spec: Spec<T>, oracle: T -> Outcome, a: Ledger<T>, ra: map<T, Outcome>, b: Ledger<T>, rb: map<T, Outcome>
  )
    requires Closed(spec.graph) && !Cyclic(spec.graph)
    requires FinalBooks(spec, oracle, a, ra) && FinalBooks(spec, oracle, b, rb)
    ensures a == b && ra == rb
  {
    var rank := AcyclicIsRanked(spec.graph);
    forall n | n in spec.graph
      ensures n in ra <==> n in rb
      ensures n in a.failed <==> n in b.failed
      ensures n in a.infra <==> n in b.infra
    {
      SameFate(spec, spec.graph.Keys, spec.graph.Keys, oracle, rank, a, ra, b, rb, n);
    }
    hide Settled;
    assert ra.Keys == rb.Keys;
    assert a.failed == b.failed && a.infra == b.infra && a.completed == b.completed;
  }

  /** Settling the tasks one by one, each after everything it depends on, leads to final books. */
  lemma {:induction false} SettleTheRest<T(!new)>(
    spec: Spec<T>, oracle: T -> Outcome, S: set<T>, ledger0: Ledger<T>, results0: map<T, Outcome>
  ) returns (ledger: Ledger<T>, results: map<T, Outcome>)
    requires Closed(spec.graph) && !Cyclic(spec.graph) && Accounted(spec, S, ledger0, results0)
    requires forall n :: n in results0 ==> results0[n] == oracle(n)
    ensures FinalBooks(spec, oracle, ledger, results)
    decreases |spec.graph.Keys - S|
  {
    var rest := spec.graph.Keys - S;
    if rest == {} {
      assert S == spec.graph.Keys;
      return ledger0, results0;
    }
    var n := SomeNodeIsFree(spec.graph, rest);
    assert Due(spec, S, n);
    var after, results1 := SettleOneTask(spec, oracle, S, ledger0, results0, n);
    hide Accounted, Due, Cyclic;
    assert spec.graph.Keys - (S + {n}) == rest - {n};
    ledger, results := SettleTheRest(spec, oracle, S + {n}, after, results1);
  }

  lemma SettleOneTask<T(!new)>(
    spec: Spec<T>, oracle: T -> Outcome, S: set<T>, ledger: Ledger<T>, results: map<T, Outcome>, n: T
  ) returns (after: Ledger<T>, results': map<T, Outcome>)
    requires Accounted(spec, S, ledger, results) && Due(spec, S, n)
    requires forall m :: m in results ==> results[m] == oracle(m)
    ensures Accounted(spec, S + {n}, after, results') && forall m :: m in results' ==> results'[m] == oracle(m)
  {
    var none: map<T, Outcome> := map[];
    hide Accounted, Due;
    if Blocked(spec, n, ledger.failed, ledger.infra) {
      var infra := if DependsOnInfra(spec, n, ledger.infra) then {n} else {};
      after, results' := ledger.(failed := ledger.failed + {n}, infra := ledger.infra + infra), results + none;
      AccountGrows(spec, S, ledger, results, {n}, none, after);
      assert S + {n} + none.Keys == S + {n};
    } else {
      var one := map[n := oracle(n)];
      after, results' := BookResult(ledger, n, oracle(n)), results + one;
      AccountGrows(spec, S, ledger, results, {}, one, after);
      assert S + {} + one.Keys == S + {n};
    }
  }

  /** Whatever the outcomes and policies, tasks without a cycle have final books. */
  lemma BooksExist<T(!new)>(spec: Spec<T>, oracle: T -> Outcome) returns (ledger: Ledger<T>, results: map<T, Outcome>)
    requires Closed(spec.graph) && !Cyclic(spec.graph)
    ensures FinalBooks(spec, oracle, ledger, results)
  {
    ledger, results := SettleTheRest(spec, oracle, {}, Ledger({}, {}, {}), map[]);
  }

  // ---------- when the strategy matters ----------

  /** The same outcome, and the same tasks have run. */
  ghost predicate SameEnd<T(!new)>(
    a: SubOutcome<T>, ra: map<T, Outcome>, b: SubOutcome<T>, rb: map<T, Outcome>
  ) {
    a == b && (a.Done? ==> ra == rb)
  }

  /** There is exactly one way for an uncancelled execution to end. */
  lemma EndsOneWay<T(!new)>(
    decls: seq<Decl<T>>, parallel: bool, onFailure: map<T, string>, defaultOnFailure: string, oracle: T -> Outcome
  ) returns (outcome: SubOutcome<T>, results: map<T, Outcome>)
    requires Distinct(Names(decls))
    ensures EndsAs(decls, parallel, onFailure, defaultOnFailure, oracle, outcome, results)
    ensures forall o, r ::
      EndsAs(decls, parallel, onFailure, defaultOnFailure, oracle, o, r) ==> SameEnd(outcome, results, o, r)
  {
    var effective := if parallel then decls else Chained(decls);
    var spec := SpecOf(decls, parallel, onFailure, defaultOnFailure);
    ChainKeepsNames(decls);
    hide FinalBooks, Cyclic, KnownDependencies, Distinct, GraphFrom, Escapes;
    outcome, results := DagFailed, map[];
    if Levellable(effective) {
      KnownIsClosed(effective);
      var ledger;
      ledger, results := BooksExist(spec, oracle);
      outcome := if !parallel && Escapes(spec, oracle) then Escaped else Done(ledger);
      forall o, r | EndsAs(decls, parallel, onFailure, defaultOnFailure, oracle, o, r)
        ensures SameEnd(outcome, results, o, r)
      {
        if o.Done? {
          ScheduleDoesNotMatter(spec, oracle, ledger, results, o.ledger, r);
        }
      }
    }
  }

  /** Both strategies end the same way, for these policies and outcomes. */
  ghost predicate AlikeFor<T(!new)>(
    decls: seq<Decl<T>>, onFailure: map<T, string>, defaultOnFailure: string, oracle: T -> Outcome
  ) {
    forall a, ra, b, rb ::
      && EndsAs(decls, true, onFailure, defaultOnFailure, oracle, a, ra)
      && EndsAs(decls, false, onFailure, defaultOnFailure, oracle, b, rb)
      ==> SameEnd(a, ra, b, rb)
  }

  ghost predicate NeverRaises<T(!new)>(oracle: T -> Outcome) {
    forall n :: oracle(n).Finished?
  }

  /** As long as no task raises, both strategies end the same way. */
  ghost predicate StrategiesAgree<T(!new)>(decls: seq<Decl<T>>) {
    forall onFailure, defaultOnFailure, oracle ::
      NeverRaises(oracle) ==> AlikeFor(decls, onFailure, defaultOnFailure, oracle)
  }

  /** Whatever the tasks do, both strategies end the same way. */
  ghost predicate StrategiesAlwaysAgree<T(!new)>(decls: seq<Decl<T>>) {
    forall onFailure, defaultOnFailure, oracle :: AlikeFor(decls, onFailure, defaultOnFailure, oracle)
  }

  /**
   A task that declares no dependencies, but follows another: if that one fails and no policy says continue,
   it runs in parallel, and does not in sequence.
   */
  lemma StrategiesDiffer<T(!new)>(
    decls: seq<Decl<T>>, i: nat, oracle: T -> Outcome,
    a: SubOutcome<T>, ra: map<T, Outcome>, b: SubOutcome<T>, rb: map<T, Outcome>
  )
    requires Distinct(Names(decls)) && 0 < i < |decls| && decls[i].dependsOn == [] && Levellable(decls)
    requires EndsAs(decls, true, map[], "fail", oracle, a, ra) && EndsAs(decls, false, map[], "fail", oracle, b, rb)
    requires Fails(oracle(decls[i - 1].name))
    ensures a.Done? && decls[i].name in ra && (b.Done? ==> decls[i].name !in rb)
    ensures !SameEnd(a, ra, b, rb)
  {
    var n, d := decls[i].name, decls[i - 1].name;
    var free, chained := SpecOf(decls, true, map[], "fail"), SpecOf(decls, false, map[], "fail");
    hide GraphFrom, FinalBooks, Distinct, Names, Levellable, Escapes;
    ChainKeepsNames(decls);
    GraphAt(decls, i);
    GraphAt(Chained(decls), i);
    GraphAt(Chained(decls), i - 1);
    RunsWithoutDependencies(free, oracle, a.ledger, ra, n);
    if b.Done? {
      SkippedAfterFailure(chained, oracle, b.ledger, rb, n, d);
    }
  }

  lemma RunsWithoutDependencies<T(!new)>(
    spec: Spec<T>, oracle: T -> Outcome, ledger: Ledger<T>, results: map<T, Outcome>, n: T
  )
    requires FinalBooks(spec, oracle, ledger, results) && n in spec.graph && spec.graph[n] == []
    ensures n in results && results[n] == oracle(n)
  {
    assert Settled(spec, n, ledger, results);
  }

  lemma SkippedAfterFailure<T(!new)>(
    spec: Spec<T>, oracle: T -> Outcome, ledger: Ledger<T>, results: map<T, Outcome>, n: T, d: T
  )
    requires FinalBooks(spec, oracle, ledger, results) && n in spec.graph && spec.graph[n] == [d] && d in spec.graph
    requires !spec.Continues(n) && !spec.Continues(d) && Fails(oracle(d))
    ensures n !in results
  {
    assert Settled(spec, n, ledger, results) && Settled(spec, d, ledger, results);
    assert d in ledger.failed;
    assert BlockedBy(spec, n, d, ledger.failed, ledger.infra);
  }

  /**
   As long as no task raises, the strategy makes no difference exactly when chaining makes none to the tasks,
   or they cannot run as they are declared.
   */
  lemma StrategyDoesNotMatterIff<T(!new)>(decls: seq<Decl<T>>)
    requires Distinct(Names(decls))
    ensures StrategiesAgree(decls) <==> Chained(decls) == decls || !Levellable(decls)
  {
    if !Levellable(decls) {
      NotLevellableAgree(decls);
    } else if Chained(decls) == decls {
      hide AlikeFor, Levellable;
      forall onFailure, defaultOnFailure, oracle: T -> Outcome | NeverRaises(oracle)
        ensures AlikeFor(decls, onFailure, defaultOnFailure, oracle)
      {
        SeparateIffEscapes(decls, onFailure, defaultOnFailure, oracle);
        NoEscape(SpecOf(decls, false, onFailure, defaultOnFailure), oracle);
      }
    } else {
      var i :| 0 < i < |decls| && decls[i].dependsOn == [];
      DisagreeWhenNot(decls, i);
    }
  }

  lemma NoEscape<T(!new)>(spec: Spec<T>, oracle: T -> Outcome)
    requires NeverRaises(oracle)
    ensures !Escapes(spec, oracle)
  {
    hide Accounted;
  }

  /** Tasks that cannot run as declared cannot run chained. */
  lemma NotLevellableAgree<T(!new)>(decls: seq<Decl<T>>)
    requires Distinct(Names(decls)) && !Levellable(decls)
    ensures !Levellable(Chained(decls)) && StrategiesAlwaysAgree(decls) && StrategiesAgree(decls)
  {
    hide KnownDependencies, Cyclic, Distinct, GraphFrom, FinalBooks;
    if Levellable(Chained(decls)) {
      ChainedAcyclicIsAcyclic(decls);
    }
  }

  /** Tasks that chaining leaves alone: the strategies end differently exactly when some task runs and raises. */
  lemma SeparateIffEscapes<T(!new)>(
    decls: seq<Decl<T>>, onFailure: map<T, string>, defaultOnFailure: string, oracle: T -> Outcome
  )
    requires Distinct(Names(decls)) && Chained(decls) == decls && Levellable(decls)
    ensures AlikeFor(decls, onFailure, defaultOnFailure, oracle) <==>
      !Escapes(SpecOf(decls, false, onFailure, defaultOnFailure), oracle)
  {
    hide FinalBooks, Cyclic, KnownDependencies, Distinct, GraphFrom, Escapes;
    var a, ra := EndsOneWay(decls, true, onFailure, defaultOnFailure, oracle);
    var b, rb := EndsOneWay(decls, false, onFailure, defaultOnFailure, oracle);
    if Escapes(SpecOf(decls, false, onFailure, defaultOnFailure), oracle) {
      assert a.Done? && b.Escaped?;
    } else {
      assert EndsAs(decls, false, onFailure, defaultOnFailure, oracle, a, ra);
    }
  }

  /** A task that runs and raises always separates the strategies: in parallel its failure is booked. */
  lemma RaisingSeparates<T(!new)>(
    decls: seq<Decl<T>>, onFailure: map<T, string>, defaultOnFailure: string, oracle: T -> Outcome,
    a: SubOutcome<T>, ra: map<T, Outcome>, b: SubOutcome<T>, rb: map<T, Outcome>
  )
    requires Distinct(Names(decls)) && Levellable(Chained(decls))
    requires Escapes(SpecOf(decls, false, onFailure, defaultOnFailure), oracle)
    requires EndsAs(decls, true, onFailure, defaultOnFailure, oracle, a, ra)
    requires EndsAs(decls, false, onFailure, defaultOnFailure, oracle, b, rb)
    ensures a.Done? && b.Escaped?
  {
    hide FinalBooks, Cyclic, KnownDependencies, Distinct, GraphFrom, Escapes;
    ChainedAcyclicIsAcyclic(decls);
  }

  lemma DisagreeWhenNot<T(!new)>(decls: seq<Decl<T>>, i: nat)
    requires Distinct(Names(decls)) && 0 < i < |decls| && decls[i].dependsOn == [] && Levellable(decls)
    ensures !StrategiesAgree(decls)
  {
    hide EndsAs, Levellable, Distinct, SameEnd;
    var failing: T -> Outcome := _ => Finished(1, false);
    var a, ra := EndsOneWay(decls, true, map[], "fail", failing);
    var b, rb := EndsOneWay(decls, false, map[], "fail", failing);
    StrategiesDiffer(decls, i, failing, a, ra, b, rb);
    assert NeverRaises(failing) && !AlikeFor(decls, map[], "fail", failing);
  }

  /** If tasks may raise, the strategies are interchangeable only where nothing can run at all. */
  lemma StrategyNeverMattersIff<T(!new)>(decls: seq<Decl<T>>)
    requires Distinct(Names(decls))
    ensures StrategiesAlwaysAgree(decls) <==> decls == [] || !Levellable(decls)
  {
    if !Levellable(decls) {
      NotLevellableAgree(decls);
    } else if Chained(decls) != decls {
      StrategyDoesNotMatterIff(decls);
    } else if decls == [] {
      hide AlikeFor, Levellable;
      forall onFailure, defaultOnFailure, oracle: T -> Outcome
        ensures AlikeFor(decls, onFailure, defaultOnFailure, oracle)
      {
        SeparateIffEscapes(decls, onFailure, defaultOnFailure, oracle);
        NothingToRaise(SpecOf(decls, false, onFailure, defaultOnFailure), oracle);
      }
    } else {
      hide AlikeFor, Levellable;
      SeparateIffEscapes(decls, map[], "fail", _ => Raised);
      EverythingRaises(decls);
      assert !AlikeFor(decls, map[], "fail", _ => Raised);
    }
  }

  lemma NothingToRaise<T(!new)>(spec: Spec<T>, oracle: T -> Outcome)
    requires spec.graph.Keys == {}
    ensures !Escapes(spec, oracle)
  {
  }

  /** Some task waits for nothing; if all raise, it runs and raises. */
  lemma EverythingRaises<T(!new)>(decls: seq<Decl<T>>)
    requires decls != [] && Distinct(Names(decls)) && Chained(decls) == decls && Levellable(decls)
    ensures Escapes(SpecOf(decls, false, map[], "fail"), _ => Raised)
  {
    var spec := SpecOf(decls, false, map[], "fail");
    KnownIsClosed(decls);
    GraphFromKeys(decls);
    assert Names(decls)[0] in spec.graph.Keys;
    var n := SomeNodeIsFree(spec.graph, spec.graph.Keys);
    EmptyOrMember(spec.graph[n]);
    var ledger, results := BooksExist(spec, _ => Raised);
    hide FinalBooks, Cyclic, Levellable;
    RunsWithoutDependencies(spec, _ => Raised, ledger, results, n);
    assert SomeResultRaised(results);
  }

  /** One task that raises: booked as failed in parallel, and an exception in sequence. */
  lemma OneTaskRaises()
    ensures StrategiesAgree([Decl("build", [])])
    ensures EndsAs([Decl("build", [])], true, map[], "continue", _ => Raised, Done(Ledger({"build"}, {}, {})),
      map["build" := Raised])
    ensures EndsAs([Decl("build", [])], false, map[], "continue", _ => Raised, Escaped, map[])
  {
    var decls := [Decl("build", [])];
    var spec := Spec(GraphFrom(decls), map[], "continue");
    assert Chained(decls) == decls;
    assert Distinct(Names(decls)) && KnownDependencies(decls);
    GraphAt(decls, 0);
    GraphFromKeys(decls);
    assert spec.graph == map["build" := []];
    OneTaskBooks(spec);
    hide FinalBooks, Cyclic, GraphFrom;
    StrategyDoesNotMatterIff(decls);
  }

  lemma OneTaskBooks(spec: Spec<string>)
    requires spec.graph == map["build" := []]
    ensures !Cyclic(spec.graph) && Escapes(spec, _ => Raised)
    ensures FinalBooks(spec, _ => Raised, Ledger({"build"}, {}, {}), map["build" := Raised])
  {
    var ledger, results := Ledger({"build"}, {}, {}), map["build" := Raised];
    RankedIsAcyclic(spec.graph, map["build" := 0]);
    assert Settled(spec, "build", ledger, results);
    assert FinalBooks(spec, _ => Raised, ledger, results) && SomeResultRaised(results);
  }

  /** A task that was cancelled before it started counts as failed, and not as a failure of the infrastructure. */
  lemma CancelledIsFailed<T(!new)>(
    spec: Spec<T>, S: set<T>, oracle: T -> Outcome, ledger: Ledger<T>, results: map<T, Outcome>, trace: seq<Event<T>>,
    n: T
  )
    requires Accounted(spec, S, ledger, results) && n in results && Start(n) !in trace
    requires Honest(n, results[n], oracle, trace, true)
    ensures n in ledger.failed && n !in ledger.completed && n !in ledger.infra
  {
    assert Settled(spec, n, ledger, results);
  }

  // ---------- two tasks, of which the first fails ----------

  const BUILD_AND_TEST := [Decl("build", []), Decl("test", ["build"])]

  function BuildFails(infrastructure: bool): string -> Outcome {
    n => if n == "build" then Finished(1, infrastructure) else Finished(0, false)
  }

  /** What comes of the tests, for all policies. */
  lemma TestAfterBuild(
    parallel: bool, onFailure: map<string, string>, defaultOnFailure: string, infrastructure: bool, runs: bool
  )
    requires runs <==>
      && !infrastructure
      && "continue" in [
        if "test" in onFailure && onFailure["test"] != "" then onFailure["test"] else defaultOnFailure,
        if "build" in onFailure && onFailure["build"] != "" then onFailure["build"] else defaultOnFailure]
    ensures EndsAs(BUILD_AND_TEST, parallel, onFailure, defaultOnFailure, BuildFails(infrastructure),
      Done(if runs then Ledger({"build"}, {}, {"test"})
           else Ledger({"build", "test"}, if infrastructure then {"build", "test"} else {}, {})),
      if runs then map["build" := Finished(1, infrastructure), "test" := Finished(0, false)]
      else map["build" := Finished(1, infrastructure)])
  {
    var spec := SpecOf(BUILD_AND_TEST, parallel, onFailure, defaultOnFailure);
    assert Chained(BUILD_AND_TEST) == BUILD_AND_TEST;
    TwoTaskGraph();
    TwoTaskBooks(spec, infrastructure, runs);
    hide FinalBooks, GraphFrom, Cyclic, KnownDependencies;
    NoEscape(spec, BuildFails(infrastructure));
  }

  lemma TwoTaskGraph()
    ensures GraphFrom(BUILD_AND_TEST) == map["build" := [], "test" := ["build"]]
    ensures KnownDependencies(BUILD_AND_TEST) && !Cyclic(GraphFrom(BUILD_AND_TEST))
  {
    assert "build"[0] != "test"[0];
    assert Names(BUILD_AND_TEST)[0] == "build" && Names(BUILD_AND_TEST)[1] == "test";
    GraphAt(BUILD_AND_TEST, 0);
    GraphAt(BUILD_AND_TEST, 1);
    GraphFromKeys(BUILD_AND_TEST);
    assert GraphFrom(BUILD_AND_TEST) == map["build" := [], "test" := ["build"]];
    RankedIsAcyclic(GraphFrom(BUILD_AND_TEST), map["build" := 0, "test" := 1]);
  }

  lemma TwoTaskBooks(spec: Spec<string>, infrastructure: bool, runs: bool)
    requires spec.graph == map["build" := [], "test" := ["build"]]
    requires runs <==> !infrastructure && (spec.Continues("test") || spec.Continues("build"))
    ensures FinalBooks(spec, BuildFails(infrastructure),
      if runs then Ledger({"build"}, {}, {"test"})
      else Ledger({"build", "test"}, if infrastructure then {"build", "test"} else {}, {}),
      if runs then map["build" := Finished(1, infrastructure), "test" := Finished(0, false)]
      else map["build" := Finished(1, infrastructure)])
  {
    assert "build"[0] != "test"[0];
    var ledger := if runs then Ledger({"build"}, {}, {"test"})
      else Ledger({"build", "test"}, if infrastructure then {"build", "test"} else {}, {});
    var results := if runs then map["build" := Finished(1, infrastructure), "test" := Finished(0, false)]
      else map["build" := Finished(1, infrastructure)];
    assert Settled(spec, "build", ledger, results);
    assert BlockedBy(spec, "test", "build", ledger.failed, ledger.infra) <==> !runs;
    assert spec.graph["test"][0] == "build";
    assert Settled(spec, "test", ledger, results);
  }

  /** A failure is tolerated if the failed task says continue, or the one after it, or the subpipeline. */
  lemma ToleratedFailure(parallel: bool)
    ensures var done := Done(Ledger({"build"}, {}, {"test"}));
      var results := map["build" := Finished(1, false), "test" := Finished(0, false)];
      && EndsAs(BUILD_AND_TEST, parallel, map["build" := "continue"], "fail", BuildFails(false), done, results)
      && EndsAs(BUILD_AND_TEST, parallel, map["test" := "continue"], "fail", BuildFails(false), done, results)
      && EndsAs(BUILD_AND_TEST, parallel, map["test" := "fail", "build" := ""], "continue", BuildFails(false), done,
        results)
  {
    assert "build"[0] != "test"[0];
    TestAfterBuild(parallel, map["build" := "continue"], "fail", false, true);
    TestAfterBuild(parallel, map["test" := "continue"], "fail", false, true);
    TestAfterBuild(parallel, map["test" := "fail", "build" := ""], "continue", false, true);
  }

  /** It is not if nobody says so, or if both say fail; and a failure of the infrastructure never is. */
  lemma FailureThatBlocks(parallel: bool)
    ensures EndsAs(BUILD_AND_TEST, parallel, map[], "fail", BuildFails(false),
      Done(Ledger({"build", "test"}, {}, {})), map["build" := Finished(1, false)])
    ensures EndsAs(BUILD_AND_TEST, parallel, map["build" := "fail", "test" := "fail"], "continue", BuildFails(false),
      Done(Ledger({"build", "test"}, {}, {})), map["build" := Finished(1, false)])
    ensures EndsAs(BUILD_AND_TEST, parallel, map["build" := "continue", "test" := "continue"], "continue",
      BuildFails(true), Done(Ledger({"build", "test"}, {"build", "test"}, {})), map["build" := Finished(1, true)])
  {
    assert "build"[0] != "test"[0] && "fail"[0] != "continue"[0];
    TestAfterBuild(parallel, map[], "fail", false, false);
    TestAfterBuild(parallel, map["build" := "fail", "test" := "fail"], "continue", false, false);
    TestAfterBuild(parallel, map["build" := "continue", "test" := "continue"], "continue", true, false);
  }
}
