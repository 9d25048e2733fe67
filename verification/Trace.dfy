/** What a scheduler did, as the sequence of task starts and finishes. */
module Trace {
  import opened Graph
  import opened Listing

  datatype Event<T> = Start(task: T) | Finish(task: T)

  /** No task starts or finishes twice, and a task finishes only after it started. */
  ghost predicate WellFormed<T>(trace: seq<Event<T>>) {
    && Distinct(trace)
    && forall i :: 0 <= i < |trace| && trace[i].Finish? ==> Start(trace[i].task) in trace[..i]
  }

  /** Everything that started has finished. */
  ghost predicate AllFinished<T(!new)>(trace: seq<Event<T>>) {
    forall n :: Start(n) in trace ==> Finish(n) in trace
  }

  ghost predicate OnlyTasks<T>(trace: seq<Event<T>>, tasks: set<T>) {
    forall e :: e in trace ==> e.task in tasks
  }

  /** A batch of tasks run to the end. */
  ghost predicate IsBatch<T(!new)>(trace: seq<Event<T>>, tasks: set<T>) {
    WellFormed(trace) && AllFinished(trace) && OnlyTasks(trace, tasks)
  }

  /** A task starts only after everything it depends on, that runs at all, has finished. */
  ghost predicate Ordered<T(!new)>(g: Graph<T>, trace: seq<Event<T>>) {
    forall i, d :: 0 <= i < |trace| && trace[i].Start? && Reach(g, trace[i].task, d) && Start(d) in trace ==>
      Finish(d) in trace[..i]
  }

  /** How many tasks have started but not finished. */
  function InFlight<T>(trace: seq<Event<T>>): int {
    if trace == [] then 0
    else InFlight(trace[..|trace| - 1]) + if trace[|trace| - 1].Start? then 1 else -1
  }

  ghost predicate AtMostInFlight<T>(trace: seq<Event<T>>, limit: int) {
    forall i :: 0 <= i <= |trace| ==> InFlight(trace[..i]) <= limit
  }

  lemma StartSnoc<T(!new)>(trace: seq<Event<T>>, n: T)
    requires WellFormed(trace) && Start(n) !in trace
    ensures WellFormed(trace + [Start(n)])
    ensures InFlight(trace + [Start(n)]) == InFlight(trace) + 1
  {
    var r := trace + [Start(n)];
    assert r[..|r| - 1] == trace;
    PrefixesKept(trace, Start(n));
  }

  lemma FinishSnoc<T(!new)>(trace: seq<Event<T>>, n: T)
    requires WellFormed(trace) && Start(n) in trace && Finish(n) !in trace
    ensures WellFormed(trace + [Finish(n)])
    ensures InFlight(trace + [Finish(n)]) == InFlight(trace) - 1
  {
    var r := trace + [Finish(n)];
    assert r[..|r| - 1] == trace;
    PrefixesKept(trace, Finish(n));
  }

  lemma OnlyTasksSnoc<T(!new)>(tasks: set<T>, trace: seq<Event<T>>, e: Event<T>)
    requires OnlyTasks(trace, tasks) && e.task in tasks
    ensures OnlyTasks(trace + [e], tasks) && forall x :: x in trace + [e] <==> x in trace || x == e
  {
  }

  lemma PrefixesKept<T>(trace: seq<Event<T>>, e: Event<T>)
    ensures forall i :: 0 <= i <= |trace| ==> (trace + [e])[..i] == trace[..i]
  {
  }

  lemma BoundSnoc<T>(trace: seq<Event<T>>, e: Event<T>, limit: int)
    requires AtMostInFlight(trace, limit) && InFlight(trace + [e]) <= limit
    ensures AtMostInFlight(trace + [e], limit)
  {
    var r := trace + [e];
    forall i | 0 <= i <= |r|
      ensures InFlight(r[..i]) <= limit
    {
      if i <= |trace| {
        assert r[..i] == trace[..i];
      } else {
        assert r[..i] == r;
      }
    }
  }

  // ---------- batches one after another ----------

  /** None of the tasks run so far depends on the new ones, and the new ones not on each other. */
  ghost predicate NextBatch<T(!new)>(g: Graph<T>, before: set<T>, batch: set<T>) {
    && before !! batch
    && forall n, d :: n in before + batch && d in batch ==> !Reach(g, n, d)
  }

  /** Running a further batch after the earlier ones keeps every start behind its dependencies. */
  lemma BatchKeepsOrder<T(!new)>(g: Graph<T>, trace: seq<Event<T>>, before: set<T>, more: seq<Event<T>>, batch: set<T>)
    requires IsBatch(trace, before) && Ordered(g, trace)
    requires IsBatch(more, batch) && NextBatch(g, before, batch)
    ensures IsBatch(trace + more, before + batch) && Ordered(g, trace + more)
  {
    var all := trace + more;
    BatchesTogether(trace, before, more, batch);
    forall i, d | 0 <= i < |all| && all[i].Start? && Reach(g, all[i].task, d) && Start(d) in all
      ensures Finish(d) in all[..i]
    {
      var n := all[i].task;
      if i < |trace| {
        assert all[i] == trace[i] && all[..i] == trace[..i];
        assert n in before;
        assert d !in batch;
        assert Start(d) in trace;
      } else {
        assert all[i] == more[i - |trace|];
        assert n in batch;
        assert d !in batch;
        assert Start(d) in trace;
        assert Finish(d) in trace;
        assert all[..i] == trace + more[..i - |trace|];
      }
    }
  }

  lemma BatchesTogether<T(!new)>(trace: seq<Event<T>>, before: set<T>, more: seq<Event<T>>, batch: set<T>)
    requires IsBatch(trace, before) && IsBatch(more, batch) && before !! batch
    ensures IsBatch(trace + more, before + batch)
  {
    var all := trace + more;
    forall i, j | 0 <= i < j < |all|
      ensures all[i] != all[j]
    {
      if i < |trace| <= j {
        assert all[i] in trace && all[j] in more;
      }
    }
    forall i | 0 <= i < |all| && all[i].Finish?
      ensures Start(all[i].task) in all[..i]
    {
      if i < |trace| {
        assert all[..i] == trace[..i];
      } else {
        assert all[..i] == trace + more[..i - |trace|];
      }
    }
  }

  /** A finished batch leaves nothing in flight, so bounds carry over from batch to batch. */
  lemma {:induction false} InFlightConcat<T>(a: seq<Event<T>>, b: seq<Event<T>>)
    ensures InFlight(a + b) == InFlight(a) + InFlight(b)
  {
    if b == [] {
      assert a + b == a;
    } else {
      var front := b[..|b| - 1];
      assert (a + b)[..|a + b| - 1] == a + front;
      InFlightConcat(a, front);
    }
  }

  lemma BoundConcat<T>(a: seq<Event<T>>, b: seq<Event<T>>, limit: int)
    requires AtMostInFlight(a, limit) && AtMostInFlight(b, limit) && InFlight(a) == 0
    ensures AtMostInFlight(a + b, limit) && InFlight(a + b) == InFlight(b)
  {
    var all := a + b;
    InFlightConcat(a, b);
    forall i | 0 <= i <= |all|
      ensures InFlight(all[..i]) <= limit
    {
      if i <= |a| {
        assert all[..i] == a[..i];
      } else {
        assert all[..i] == a + b[..i - |a|];
        InFlightConcat(a, b[..i - |a|]);
      }
    }
  }

  lemma BoundWider<T>(trace: seq<Event<T>>, limit: int, wider: int)
    requires AtMostInFlight(trace, limit) && limit <= wider
    ensures AtMostInFlight(trace, wider)
  {
  }

  // ---------- the tasks of a trace ----------

  /** The tasks of the events, in the order of the events. */
  function TasksOf<T>(trace: seq<Event<T>>): (r: seq<T>)
    ensures |r| == |trace| && forall i :: 0 <= i < |trace| ==> r[i] == trace[i].task
  {
    seq(|trace|, i requires 0 <= i < |trace| => trace[i].task)
  }

  lemma TasksConcat<T>(a: seq<Event<T>>, b: seq<Event<T>>)
    ensures TasksOf(a + b) == TasksOf(a) + TasksOf(b)
  {
  }

  // ---------- tagged traces ----------

  function Tag<S, T>(s: S, e: Event<T>): Event<(S, T)> {
    match e
    case Start(t) => Start((s, t))
    case Finish(t) => Finish((s, t))
  }

  /** The same events, each task named together with where it belongs. */
  function Tagged<S, T>(s: S, trace: seq<Event<T>>): seq<Event<(S, T)>> {
    seq(|trace|, i requires 0 <= i < |trace| => Tag(s, trace[i]))
  }

  lemma TaggedMembers<S(!new), T(!new)>(s: S, trace: seq<Event<T>>)
    ensures forall e :: e in trace <==> Tag(s, e) in Tagged(s, trace)
    ensures forall e :: e in Tagged(s, trace) ==> e.task.0 == s
  {
    forall e | e in trace
      ensures Tag(s, e) in Tagged(s, trace)
    {
      var i :| 0 <= i < |trace| && trace[i] == e;
      assert Tagged(s, trace)[i] == Tag(s, e);
    }
  }

  lemma TaggedPrefix<S, T>(s: S, trace: seq<Event<T>>, i: nat)
    requires i <= |trace|
    ensures Tagged(s, trace)[..i] == Tagged(s, trace[..i])
  {
  }

  lemma TaggedWellFormed<S(!new), T(!new)>(s: S, trace: seq<Event<T>>)
    requires WellFormed(trace) && AllFinished(trace)
    ensures WellFormed(Tagged(s, trace)) && AllFinished(Tagged(s, trace))
  {
    TaggedDistinct(s, trace);
    TaggedStarts(s, trace);
    TaggedFinished(s, trace);
  }

  lemma TaggedDistinct<S, T>(s: S, trace: seq<Event<T>>)
    requires Distinct(trace)
    ensures Distinct(Tagged(s, trace))
  {
  }

  lemma TaggedStarts<S(!new), T(!new)>(s: S, trace: seq<Event<T>>)
    requires WellFormed(trace)
    ensures var r := Tagged(s, trace); forall i :: 0 <= i < |r| && r[i].Finish? ==> Start(r[i].task) in r[..i]
  {
    var r := Tagged(s, trace);
    forall i | 0 <= i < |r| && r[i].Finish?
      ensures Start(r[i].task) in r[..i]
    {
      TaggedPrefix(s, trace, i);
      TaggedMembers(s, trace[..i]);
      assert Tag(s, Start(trace[i].task)) in Tagged(s, trace[..i]);
    }
  }

  lemma TaggedFinished<S(!new), T(!new)>(s: S, trace: seq<Event<T>>)
    requires AllFinished(trace)
    ensures AllFinished(Tagged(s, trace))
  {
    TaggedMembers(s, trace);
    hide Tagged;
    forall n | Start(n) in Tagged(s, trace)
      ensures Finish(n) in Tagged(s, trace)
    {
      assert Tag(s, Start(n.1)) == Start(n) && Tag(s, Finish(n.1)) == Finish(n);
    }
  }

  lemma {:induction false} TaggedInFlight<S, T>(s: S, trace: seq<Event<T>>)
    ensures InFlight(Tagged(s, trace)) == InFlight(trace)
  {
    if trace != [] {
      TaggedInFlight(s, trace[..|trace| - 1]);
      TaggedPrefix(s, trace, |trace| - 1);
    }
  }

  lemma TaggedBound<S, T>(s: S, trace: seq<Event<T>>, limit: int)
    requires AtMostInFlight(trace, limit)
    ensures AtMostInFlight(Tagged(s, trace), limit)
  {
    forall i | 0 <= i <= |trace|
      ensures InFlight(Tagged(s, trace)[..i]) <= limit
    {
      TaggedPrefix(s, trace, i);
      TaggedInFlight(s, trace[..i]);
    }
  }
}
