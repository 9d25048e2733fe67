/** The bounded scheduler that runs one level's tasks in parallel, in whatever order they complete. */
module Scheduler {
  import opened Wrappers
  import opened Listing
  import opened Trace

  /** What the runner sees of one task: a result with its exit code and infrastructure flag, or an exception. */
  datatype Outcome = Finished(exitCode: int, infrastructure: bool) | Raised

  const CANCELLED: Outcome := Finished(-1, false)

  /** How many tasks may be pending: a missing or non-positive setting means five. */
  function EffectiveLimit(configured: Option<int>): (limit: nat)
    ensures limit >= 1
    ensures if configured.Some? && configured.value >= 1 then configured == Some(limit) else limit == 5
  {
    if configured.Some? && configured.value > 0 then configured.value else 5
  }

  function Smaller(a: nat, b: nat): (r: nat)
    ensures r <= a && r <= b && (r == a || r == b)
  {
    if a <= b then a else b
  }

  /**
   How many tasks of a subpipeline execute at once: the parallel strategy schedules up to its own limit, and
   each of its tasks needs one of the whole pipeline's permits.
   */
  function InFlightLimit(parallel: bool, configured: Option<int>, permits: nat): (limit: nat)
    ensures !parallel ==> limit == 1
    ensures parallel ==> limit <= permits && limit <= EffectiveLimit(configured)
    ensures parallel ==> limit == permits || limit == EffectiveLimit(configured)
  {
    if parallel then Smaller(EffectiveLimit(configured), permits) else 1
  }

  /**
   The runner's cancellation flag, which can turn on at any moment, and never off again, and the permits of
   the semaphore that all tasks of the pipeline share.
   */
  class PipelineRunner {
    /** Whether anybody asks for the run to be cancelled while it lasts. */
    const requested: bool
    const maxConcurrentTasks: Option<int>
    var cancelled: bool
    var unexpectedError: bool

    constructor (requested: bool, maxConcurrentTasks: Option<int>)
      ensures !cancelled && !unexpectedError
      ensures this.requested == requested && this.maxConcurrentTasks == maxConcurrentTasks
    {
      this.requested, this.maxConcurrentTasks := requested, maxConcurrentTasks;
      cancelled, unexpectedError := false, false;
    }

    /** The pipeline's semaphore: its own setting if that is positive, else five. */
    function TaskPermits(): (permits: nat)
      ensures permits ==
        if maxConcurrentTasks.Some? && maxConcurrentTasks.value > 0 then maxConcurrentTasks.value else 5
    {
      EffectiveLimit(maxConcurrentTasks)
    }

    method CheckCancelSignal() returns (b: bool)
      modifies this`cancelled
      ensures b == cancelled && (old(cancelled) ==> cancelled) && (cancelled ==> old(cancelled) || requested)
    {
      if cancelled {
        return true;
      }
      if requested {
        cancelled := *;
      }
      b := cancelled;
    }
  }

  /** The trace shows exactly the begun tasks in flight, and no other task without a result at all. */
  ghost predicate Shows<T(!new)>(
    trace: seq<Event<T>>, tasks: seq<T>, results: seq<Option<Outcome>>, begun: set<nat>, limit: nat
  )
    requires |results| == |tasks|
  {
    && WellFormed(trace) && OnlyTasks(trace, Elements(tasks))
    && InFlight(trace) == |begun| && AtMostInFlight(trace, limit)
    && (forall i :: 0 <= i < |tasks| ==> (i in begun <==> Start(tasks[i]) in trace && Finish(tasks[i]) !in trace))
    && (forall i :: 0 <= i < |tasks| && results[i].None? && i !in begun ==> Start(tasks[i]) !in trace)
  }

  lemma ShowsStart<T(!new)>(
    trace: seq<Event<T>>, tasks: seq<T>, results: seq<Option<Outcome>>, begun: set<nat>, limit: nat, i: nat
  )
    requires |results| == |tasks| && Distinct(tasks) && Shows(trace, tasks, results, begun, limit)
    requires i < |tasks| && i !in begun && results[i].None? && |begun| < limit
    ensures Shows(trace + [Start(tasks[i])], tasks, results, begun + {i}, limit)
  {
    hide WellFormed, AtMostInFlight, Distinct, InFlight, OnlyTasks, Elements;
    DistinctAt(tasks, i);
    StartSnoc(trace, tasks[i]);
    assert |begun + {i}| == |begun| + 1;
    BoundSnoc(trace, Start(tasks[i]), limit);
    OnlyTasksSnoc(Elements(tasks), trace, Start(tasks[i]));
    var longer := trace + [Start(tasks[i])];
    forall j | 0 <= j < |tasks|
      ensures j in begun + {i} <==> Start(tasks[j]) in longer && Finish(tasks[j]) !in longer
      ensures results[j].None? && j !in begun + {i} ==> Start(tasks[j]) !in longer
    {
      assert Start(tasks[j]) in longer <==> Start(tasks[j]) in trace || j == i;
      assert Finish(tasks[j]) in longer <==> Finish(tasks[j]) in trace;
    }
  }

  lemma ShowsFinish<T(!new)>(
    trace: seq<Event<T>>, tasks: seq<T>, results: seq<Option<Outcome>>, begun: set<nat>, limit: nat, i: nat, o: Outcome
  )
    requires |results| == |tasks| && Distinct(tasks) && Shows(trace, tasks, results, begun, limit)
    requires i < |tasks| && i in begun && |begun| <= limit
    ensures Start(tasks[i]) in trace
    ensures Shows(trace + [Finish(tasks[i])], tasks, results[i := Some(o)], begun - {i}, limit)
  {
    hide WellFormed, AtMostInFlight, Distinct, InFlight, OnlyTasks, Elements;
    DistinctAt(tasks, i);
    FinishSnoc(trace, tasks[i]);
    assert |begun - {i}| == |begun| - 1;
    BoundSnoc(trace, Finish(tasks[i]), limit);
    OnlyTasksSnoc(Elements(tasks), trace, Finish(tasks[i]));
    var longer := trace + [Finish(tasks[i])];
    forall j | 0 <= j < |tasks|
      ensures j in begun - {i} <==> Start(tasks[j]) in longer && Finish(tasks[j]) !in longer
      ensures results[i := Some(o)][j].None? && j !in begun - {i} ==> Start(tasks[j]) !in longer
    {
      assert Start(tasks[j]) in longer <==> Start(tasks[j]) in trace;
      assert Finish(tasks[j]) in longer <==> Finish(tasks[j]) in trace || j == i;
    }
  }

  /** No more tasks are executing than the bound says. */
  lemma ShowsBound<T(!new)>(
    trace: seq<Event<T>>, tasks: seq<T>, results: seq<Option<Outcome>>, begun: set<nat>, limit: nat
  )
    requires |results| == |tasks| && Shows(trace, tasks, results, begun, limit)
    ensures |begun| <= limit
  {
    assert trace[..|trace|] == trace;
  }

  lemma ShowsResult<T(!new)>(
    trace: seq<Event<T>>, tasks: seq<T>, results: seq<Option<Outcome>>, begun: set<nat>, limit: nat, i: nat, o: Outcome
  )
    requires |results| == |tasks| && Shows(trace, tasks, results, begun, limit) && i < |tasks|
    ensures Shows(trace, tasks, results[i := Some(o)], begun, limit)
  {
  }

  /** The local state of one parallel level. */
  class ParallelRun<T(==,!new)> {
    const runner: PipelineRunner
    const tasks: seq<T>
    const limit: nat
    const oracle: T -> Outcome
    var results: seq<Option<Outcome>>
    var pending: set<nat>
    /** Past the check for a cancellation: executing, or waiting for a permit to. */
    var admitted: set<nat>
    var begun: set<nat>
    var next: nat
    ghost var trace: seq<Event<T>>

    /** How many tasks can execute at once. */
    function Bound(): nat { Smaller(limit, runner.TaskPermits()) }

    /** Every scheduled task is pending or has a result; unscheduled tasks have none. */
    ghost predicate Slots()
      reads this
    {
      && limit >= 1 && Distinct(tasks) && |results| == |tasks| && next <= |tasks|
      && begun <= admitted <= pending && (forall i :: i in pending ==> i < next) && |pending| <= limit
      && (forall i :: 0 <= i < |tasks| ==> (results[i].Some? <==> i < next && i !in pending))
    }

    /** The trace agrees with the slots: exactly the begun tasks are in flight. */
    ghost predicate Traced()
      reads this
      requires Slots()
    {
      Shows(trace, tasks, results, begun, Bound())
    }

    /** A result is the task's own, or a cancellation that some check has seen. */
    ghost predicate Reported()
      reads this, runner
      requires Slots()
    {
      forall i :: 0 <= i < |tasks| && results[i].Some? ==>
        || (Start(tasks[i]) in trace && results[i].value == oracle(tasks[i]))
        || (runner.cancelled && results[i].value == CANCELLED)
    }

    ghost predicate Valid()
      reads this, runner
    {
      Slots() && Traced() && Reported()
    }

    constructor (runner: PipelineRunner, tasks: seq<T>, limit: nat, oracle: T -> Outcome)
      requires Distinct(tasks) && limit >= 1
      ensures Valid() && pending == {} && next == 0 && trace == []
      ensures this.runner == runner && this.tasks == tasks && this.limit == limit && this.oracle == oracle
    {
      this.runner, this.tasks, this.limit, this.oracle := runner, tasks, limit, oracle;
      results := seq(|tasks|, _ => None);
      pending, admitted, begun, next := {}, {}, {}, 0;
      trace := [];
    }

    method Schedule()
      requires Valid() && next < |tasks| && |pending| < limit
      modifies this`pending, this`next
      ensures Valid()
      ensures pending == old(pending) + {old(next)} && next == old(next) + 1
      ensures |pending| == |old(pending)| + 1
    {
      hide Shows;
      assert next !in pending;
      pending := pending + {next};
      next := next + 1;
    }

    /** A pending task takes its first step without having been cancelled. */
    method Admit(i: nat)
      requires Valid() && i in pending - admitted
      modifies this`admitted
      ensures Valid()
      ensures admitted == old(admitted) + {i}
    {
      hide Shows, Distinct;
      admitted := admitted + {i};
    }

    /** An admitted task gets a permit and executes: it can whenever fewer execute than the pipeline has permits. */
    method Begin(i: nat)
      requires Valid() && i in admitted - begun
      requires |begun| < (if runner.maxConcurrentTasks.Some? && runner.maxConcurrentTasks.value > 0
                          then runner.maxConcurrentTasks.value else 5)
      modifies this`begun, this`trace
      ensures Valid()
      ensures begun == old(begun) + {i}
    {
      hide Shows, Distinct;
      SmallerSet(begun, pending, i);
      ShowsStart(trace, tasks, results, begun, Bound(), i);
      trace := trace + [Start(tasks[i])];
      begun := begun + {i};
    }

    /** A task that was executing returns. */
    method Complete(i: nat)
      requires Valid() && i in begun
      modifies this`begun, this`admitted, this`pending, this`results, this`trace
      ensures Valid()
      ensures pending == old(pending) - {i}
    {
      hide Shows, Distinct;
      ShowsBound(trace, tasks, results, begun, Bound());
      SubsetSize(pending - {i}, pending);
      ShowsFinish(trace, tasks, results, begun, Bound(), i, oracle(tasks[i]));
      trace := trace + [Finish(tasks[i])];
      results := results[i := Some(oracle(tasks[i]))];
      begun, admitted, pending := begun - {i}, admitted - {i}, pending - {i};
    }

    /** A pending task that never executed gets a cancellation for a result. */
    method Drop(i: nat)
      requires Valid() && i in pending - begun && runner.cancelled
      modifies this`admitted, this`pending, this`results
      ensures Valid()
      ensures pending == old(pending) - {i} && admitted == old(admitted) - {i}
    {
      hide Shows, Distinct;
      SubsetSize(pending - {i}, pending);
      ShowsResult(trace, tasks, results, begun, Bound(), i, CANCELLED);
      results := results[i := Some(CANCELLED)];
      admitted, pending := admitted - {i}, pending - {i};
    }

    /** A task that was executing is cancelled; whatever it returns is discarded. */
    method Abort(i: nat)
      requires Valid() && i in begun && runner.cancelled
      modifies this`begun, this`admitted, this`pending, this`results, this`trace
      ensures Valid()
      ensures pending == old(pending) - {i}
    {
      hide Shows, Distinct;
      Complete(i);
      ShowsResult(trace, tasks, results, begun, Bound(), i, CANCELLED);
      results := results[i := Some(CANCELLED)];
    }

    /** The flag may turn on at the check; that invalidates nothing. */
    method CheckCancel() returns (b: bool)
      requires Valid()
      modifies runner`cancelled
      ensures Valid() && b == runner.cancelled
      ensures old(runner.cancelled) ==> runner.cancelled
      ensures runner.cancelled ==> old(runner.cancelled) || runner.requested
    {
      b := runner.CheckCancelSignal();
    }

    /** The task can go on by itself: it is executing, or has not been admitted, or a permit is free. */
    predicate CanGoOn(i: nat)
      reads this
    {
      i in begun || i !in admitted || |begun| < runner.TaskPermits()
    }

    lemma Nested()
      requires Valid()
      ensures begun <= admitted <= pending
    {
    }

    /** No pending task is held up while a permit is free. */
    lemma FreePermitSuffices(i: nat)
      requires i in pending
      requires var permits := if runner.maxConcurrentTasks.Some? && runner.maxConcurrentTasks.value > 0
                              then runner.maxConcurrentTasks.value else 5;
        |begun| < permits
      ensures CanGoOn(i)
    {
    }

    lemma SomebodyGoesOn()
      requires Slots() && pending != {}
      ensures exists i :: i in pending && CanGoOn(i)
    {
      var i :| i in if begun == {} then pending else begun;
      assert CanGoOn(i);
    }

    /**
     One task goes on by a step of its own: past the check, or to its execution, or to its end; a task that finds
     the run cancelled at its check is over without having executed.
     */
    method Advance(i: nat) returns (over: bool)
      requires Valid() && i in pending && CanGoOn(i)
      modifies this`begun, this`admitted, this`pending, this`results, this`trace, runner`cancelled
      ensures Valid()
      ensures old(runner.cancelled) ==> runner.cancelled
      ensures runner.cancelled ==> old(runner.cancelled) || runner.requested
      ensures over ==> pending == old(pending) - {i}
      ensures !over ==> pending == old(pending)
      ensures !over && i in old(admitted) ==>
        admitted == old(admitted) && begun == old(begun) + {i} && i !in old(begun)
      ensures !over && i !in old(admitted) ==> admitted == old(admitted) + {i} && begun == old(begun)
      ensures old(runner.cancelled) && i !in old(admitted) ==> over && trace == old(trace) && admitted <= old(admitted)
    {
      hide Slots, Traced, Reported;
      Nested();
      if i in begun {
        Complete(i);
        return true;
      }
      if i in admitted {
        Begin(i);
        return false;
      }
      over := CheckCancel();
      if over {
        Drop(i);
      } else {
        Admit(i);
      }
    }

    /** Waits until at least one pending task is done; meanwhile others may begin or finish too. */
    method Wait()
      requires Valid() && pending != {}
      modifies this`begun, this`admitted, this`pending, this`results, this`trace, runner`cancelled
      ensures Valid()
      ensures old(runner.cancelled) ==> runner.cancelled
      ensures runner.cancelled ==> old(runner.cancelled) || runner.requested
      ensures pending < old(pending)
      ensures old(runner.cancelled && admitted == {}) ==> trace == old(trace) && admitted == {}
    {
      hide Slots, Traced, Reported, CanGoOn;
      var more := true;
      while more && pending != {}
        invariant Valid()
        invariant old(runner.cancelled) ==> runner.cancelled
        invariant runner.cancelled ==> old(runner.cancelled) || runner.requested
        invariant pending <= old(pending) && (more || pending < old(pending))
        invariant old(runner.cancelled && admitted == {}) ==> trace == old(trace) && admitted == {}
        decreases |pending|, |pending - admitted|, |admitted - begun|
      {
        Nested();
        SomebodyGoesOn();
        var i :| i in pending && CanGoOn(i);
        ghost var early, waiting, before := pending - admitted, admitted - begun, pending;
        var over := Advance(i);
        if over {
          assert before == pending + {i};
          more := *;
        } else if pending - admitted == early {
          assert admitted - begun == waiting - {i};
        } else {
          assert pending - admitted == early - {i};
        }
      }
    }

    /** Cancels everything still pending. */
    method CancelPending()
      requires Valid() && runner.cancelled
      modifies this`begun, this`admitted, this`pending, this`results, this`trace
      ensures Valid() && pending == {}
      ensures old(admitted) == {} ==> trace == old(trace)
    {
      hide Slots, Traced, Reported;
      while pending != {}
        invariant Valid() && runner.cancelled
        invariant old(admitted) == {} ==> trace == old(trace) && admitted == {}
        decreases |pending|
      {
        Nested();
        var i :| i in pending;
        ghost var before := pending;
        if i in begun {
          Abort(i);
        } else {
          Drop(i);
        }
        assert before == pending + {i};
      }
    }

    /** Fills the free places with the next tasks. */
    method Refill()
      requires Valid()
      modifies this`pending, this`next
      ensures Valid() && (next == |tasks| || |pending| == limit)
      ensures |tasks| - next + |pending| == old(|tasks| - next + |pending|)
    {
      hide Traced, Reported;
      while next < |tasks| && |pending| < limit
        invariant Valid() && |pending| <= limit
        invariant |tasks| - next + |pending| == old(|tasks| - next + |pending|)
        decreases |tasks| - next
      {
        Schedule();
      }
    }

    /**
     Runs all tasks, as many at a time as the limit and the permits allow. Every slot gets a result;
     without cancellation every task executes exactly once and slot i holds its own outcome.
     */
    method Run() returns (final: seq<Outcome>)
      requires Valid() && pending == {} && next == 0
      modifies this`begun, this`admitted, this`pending, this`results, this`trace, this`next, runner`cancelled
      ensures |final| == |tasks|
      ensures old(runner.cancelled) ==> runner.cancelled
      ensures runner.cancelled ==> old(runner.cancelled) || runner.requested
      ensures IsBatch(trace, Elements(tasks)) && AtMostInFlight(trace, Bound()) && InFlight(trace) == 0
      ensures AtMostInFlight(trace, limit)
      ensures AtMostInFlight(trace, if runner.maxConcurrentTasks.Some? && runner.maxConcurrentTasks.value > 0
                                    then runner.maxConcurrentTasks.value else 5)
      ensures forall i :: 0 <= i < |tasks| ==>
        || (Start(tasks[i]) in trace && final[i] == oracle(tasks[i]))
        || (runner.cancelled && final[i] == Finished(-1, false))
      ensures old(runner.cancelled && trace == []) ==> trace == []
    {
      hide Slots, Traced, Reported, IsBatch, AtMostInFlight, InFlight, Elements;
      Nested();
      Refill();
      while pending != {}
        invariant Valid()
        invariant old(runner.cancelled) ==> runner.cancelled
        invariant runner.cancelled ==> old(runner.cancelled) || runner.requested
        invariant runner.cancelled || next == |tasks| || |pending| == limit
        invariant old(runner.cancelled && trace == []) ==> trace == [] && admitted == {}
        decreases |tasks| - next + |pending|
      {
        ghost var before := pending;
        NextInside();
        Wait();
        FewerMembers(pending, before);
        var cancelled := CheckCancel();
        if cancelled {
          CancelPending();
          break;
        }
        Refill();
      }
      NextInside();
      RunIsComplete();
      BoundWider(trace, Bound(), limit);
      BoundWider(trace, Bound(), runner.TaskPermits());
      final := [];
      for i := 0 to |results|
        invariant |final| == i
        invariant forall j :: 0 <= j < i ==> final[j] == if results[j].Some? then results[j].value else CANCELLED
      {
        final := final + [if results[i].Some? then results[i].value else CANCELLED];
      }
    }

    lemma NextInside()
      requires Valid()
      ensures next <= |tasks| && |results| == |tasks| && limit >= 1
    {
    }

    lemma RunIsComplete()
      requires Valid() && pending == {} && (runner.cancelled || next == |tasks|)
      ensures |results| == |tasks|
      ensures IsBatch(trace, Elements(tasks)) && AtMostInFlight(trace, Bound()) && InFlight(trace) == 0
      ensures forall i :: 0 <= i < |tasks| ==>
        if results[i].Some?
        then
          || (Start(tasks[i]) in trace && results[i].value == oracle(tasks[i]))
          || (runner.cancelled && results[i].value == CANCELLED)
        else runner.cancelled
    {
    }
  }
}
