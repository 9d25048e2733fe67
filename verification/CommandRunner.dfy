/**
 The agent's end of a command: one read loop that checks, starts and enters a command before it reads
 the next message, and one goroutine per process that waits for it, takes its entry out and reports.
 */
module CommandRunner {
  import opened Wrappers
  import opened Listing

  type CommandId = int

  /** Processes are numbered in the order of their start. */
  type ProcessId = nat

  /** The result message an agent sends for a command. */
  datatype ExecResult = ExecResult(command: CommandId, exitCode: int)

  /** Where the read loop stands: between messages, past the check, or between start and insertion. */
  datatype Loop = Reading | Checked(command: CommandId) | Starting(command: CommandId, process: ProcessId)

  /** How far a process's own goroutine has come; before the insertion there is none. */
  datatype Stage = Started | Watched | Reaped | Deleted | Reported

  /**
   What waiting for a process yields: an exit code, the signal that killed it, or an error of the wait itself,
   with the code in the process's state if there is one.
   */
  datatype WaitStatus = Exited(code: nat) | Signaled(signal: nat) | WaitFailed(state: Option<nat>)

  /** A process has a wait status once it is gone. */
  datatype Process = Process(command: CommandId, stage: Stage, status: Option<WaitStatus>)

  datatype State = State(
    loop: Loop, running: map<CommandId, ProcessId>, processes: seq<Process>, sent: seq<ExecResult>,
    accepted: seq<CommandId>
  )

  const INITIAL := State(Reading, map[], [], [], [])

  datatype Event =
    | Receive(command: CommandId)
    | Start(ok: bool)
    | Insert
    | Exit(process: ProcessId, status: WaitStatus)
    | WaitReturns(process: ProcessId)
    | Delete(process: ProcessId)
    | Report(process: ProcessId)

  /** The exit code that is reported: signals count negative, and a code in the process's state wins over an error. */
  function ReportedCode(status: WaitStatus): (code: int)
    ensures status.Exited? ==> code == status.code
    ensures status.Signaled? ==> code == 0 - status.signal
    ensures status.WaitFailed? && status.state.Some? ==> code == status.state.value
    ensures status.WaitFailed? && status.state.None? ==> code == -1
  {
    match status
    case Exited(code) => code
    case Signaled(signal) => 0 - signal
    case WaitFailed(state) => if state.Some? then state.value else -1
  }

  predicate AtStage(s: State, p: ProcessId, stage: Stage) {
    p < |s.processes| && s.processes[p].stage == stage
  }

  predicate Alive(s: State, p: ProcessId) {
    p < |s.processes| && s.processes[p].status.None?
  }

  /** A process can exit at any moment; its goroutine goes on only once it has. */
  predicate Enabled(s: State, e: Event) {
    match e
    case Receive(_) => s.loop.Reading?
    case Start(_) => s.loop.Checked?
    case Insert => s.loop.Starting? && s.loop.process < |s.processes|
    case Exit(p, _) => Alive(s, p)
    case WaitReturns(p) => AtStage(s, p, Watched) && !Alive(s, p)
    case Delete(p) => AtStage(s, p, Reaped)
    case Report(p) => AtStage(s, p, Deleted) && !Alive(s, p)
  }

  function Moved(s: State, p: ProcessId, stage: Stage): seq<Process>
    requires p < |s.processes|
  {
    s.processes[p := s.processes[p].(stage := stage)]
  }

  function Step(s: State, e: Event): State
    requires Enabled(s, e)
  {
    match e
    case Receive(command) =>
      if command in s.running then s
      else s.(loop := Checked(command), accepted := s.accepted + [command])
    case Start(ok) =>
      if ok then
        s.(loop := Starting(s.loop.command, |s.processes|),
           processes := s.processes + [Process(s.loop.command, Started, None)])
      else
        s.(loop := Reading, sent := s.sent + [ExecResult(s.loop.command, -1)])
    case Insert =>
      s.(loop := Reading, running := s.running[s.loop.command := s.loop.process],
         processes := Moved(s, s.loop.process, Watched))
    case Exit(p, status) => s.(processes := s.processes[p := s.processes[p].(status := Some(status))])
    case WaitReturns(p) => s.(processes := Moved(s, p, Reaped))
    case Delete(p) =>
      s.(running := s.running - {s.processes[p].command}, processes := Moved(s, p, Deleted))
    case Report(p) =>
      s.(sent := s.sent + [ExecResult(s.processes[p].command, ReportedCode(s.processes[p].status.value))],
         processes := Moved(s, p, Reported))
  }

  // ---------- the executor ----------

  class Executor {
    var running: map<CommandId, ProcessId>
    var processes: seq<Process>
    var sent: seq<ExecResult>
    ghost var loop: Loop
    ghost var accepted: seq<CommandId>

    ghost function View(): State
      reads this
    {
      State(loop, running, processes, sent, accepted)
    }

    constructor ()
      ensures View() == INITIAL
    {
      running, processes, sent := map[], [], [];
      loop, accepted := Reading, [];
    }

    /** The first critical section: a command that is listed already is dropped. */
    method Check(command: CommandId) returns (known: bool)
      requires Enabled(View(), Receive(command))
      modifies this`loop, this`accepted
      ensures View() == Step(old(View()), Receive(command))
      ensures known <==> command in running
    {
      known := command in running;
      if !known {
        loop, accepted := Checked(command), accepted + [command];
      }
    }

    /** A command that cannot be started is reported at once. */
    method StartProcess(command: CommandId, ok: bool) returns (process: ProcessId)
      requires loop == Checked(command)
      modifies this`loop, this`processes, this`sent
      ensures View() == Step(old(View()), Start(ok)) && process == |old(processes)|
    {
      process := |processes|;
      if ok {
        processes := processes + [Process(command, Started, None)];
        loop := Starting(command, process);
      } else {
        sent := sent + [ExecResult(command, -1)];
        loop := Reading;
      }
    }

    /** The second critical section. */
    method InsertProcess(command: CommandId, process: ProcessId)
      requires loop == Starting(command, process) && process < |processes|
      modifies this`loop, this`running, this`processes
      ensures View() == Step(old(View()), Event.Insert)
    {
      running := running[command := process];
      processes := processes[process := processes[process].(stage := Watched)];
      loop := Reading;
    }

    /** A command from receipt to entry, when nothing else happens in between. */
    method Execute(command: CommandId, ok: bool)
      requires loop.Reading?
      modifies this
      ensures Possible(old(View()), Execution(command, command in old(running), ok))
      ensures View() == Run(old(View()), Execution(command, command in old(running), ok))
      ensures loop.Reading?
    {
      UnrollExecution(View(), command, ok);
      var known := Check(command);
      if known {
        return;
      }
      var process := StartProcess(command, ok);
      if ok {
        InsertProcess(command, process);
      }
    }

    /** The goroutine of one process after its exit, when nothing else happens in between. */
    method WaitForCompletion(process: ProcessId)
      requires AtStage(View(), process, Watched) && !Alive(View(), process)
      modifies this`running, this`processes, this`sent
      ensures Possible(old(View()), Completion(process))
      ensures View() == Run(old(View()), Completion(process))
      ensures var p := old(processes[process]);
        sent == old(sent) + [ExecResult(p.command, ReportedCode(p.status.value))]
    {
      UnrollCompletion(View(), process);
      var command, status := processes[process].command, processes[process].status.value;
      var exitCode: int := 0;
      if status.Signaled? {
        exitCode := 0 - status.signal;
      } else if status.WaitFailed? {
        exitCode := -1;
      } else {
        exitCode := status.code;
      }
      if status.WaitFailed? && status.state.Some? && exitCode < 0 {
        exitCode := status.state.value;
      }
      processes := processes[process := processes[process].(stage := Reaped)];
      running := running - {command};
      processes := processes[process := processes[process].(stage := Deleted)];
      sent := sent + [ExecResult(command, exitCode)];
      processes := processes[process := processes[process].(stage := Reported)];
    }
  }

  function Execution(command: CommandId, known: bool, ok: bool): seq<Event> {
    [Receive(command)] + if known then [] else [Start(ok)] + if ok then [Insert] else []
  }

  function Completion(p: ProcessId): seq<Event> {
    [WaitReturns(p), Delete(p), Report(p)]
  }

  lemma UnrollExecution(s: State, command: CommandId, ok: bool)
    requires s.loop.Reading?
    ensures Possible(s, Execution(command, command in s.running, ok))
    ensures Run(s, Execution(command, command in s.running, ok)) ==
        if command in s.running then s
        else if ok then Step(Step(Step(s, Receive(command)), Start(ok)), Insert)
        else Step(Step(s, Receive(command)), Start(ok))
  {
    if command in s.running {
      UnrollOne(s, Receive(command));
    } else if ok {
      assert Execution(command, false, ok) == [Receive(command), Start(ok)] + [Insert];
      UnrollTwo(s, Receive(command), Start(ok), [Insert]);
      UnrollOne(Step(Step(s, Receive(command)), Start(ok)), Insert);
    } else {
      assert Execution(command, false, ok) == [Receive(command), Start(ok)] + [];
      UnrollTwo(s, Receive(command), Start(ok), []);
    }
  }

  lemma UnrollCompletion(s: State, p: ProcessId)
    requires AtStage(s, p, Watched) && !Alive(s, p)
    ensures var es := Completion(p);
      && Possible(s, es)
      && Run(s, es) == Step(Step(Step(s, WaitReturns(p)), Delete(p)), Report(p))
  {
    UnrollTwo(s, WaitReturns(p), Delete(p), [Report(p)]);
    UnrollOne(Step(Step(s, WaitReturns(p)), Delete(p)), Report(p));
    assert Completion(p) == [WaitReturns(p), Delete(p)] + [Report(p)];
  }

  // ---------- what every step keeps ----------

  /** The table lists the process under its own command. */
  predicate Listed(s: State, p: ProcessId) {
    p < |s.processes| && s.processes[p].command in s.running && s.running[s.processes[p].command] == p
  }

  /** The read loop has started the process but not entered it yet. */
  predicate InStartWindow(s: State, p: ProcessId) {
    s.loop.Starting? && s.loop.process == p
  }

  /** The process is gone, and its goroutine has not taken the entry out yet. */
  predicate InExitWindow(s: State, p: ProcessId) {
    !Alive(s, p) && (AtStage(s, p, Watched) || AtStage(s, p, Reaped))
  }

  /** What the loop holds is not in the table, so an insertion never overwrites an entry. */
  predicate LoopFits(s: State) {
    match s.loop
    case Reading => true
    case Checked(command) => command !in s.running
    case Starting(command, p) => command !in s.running && AtStage(s, p, Started) && s.processes[p].command == command
  }

  /** Every entry is that of a process whose goroutine will take it out, and the other way round. */
  ghost predicate TableFits(s: State) {
    && (forall c :: c in s.running ==> s.running[c] < |s.processes| && s.processes[s.running[c]].command == c)
    && (forall p :: 0 <= p < |s.processes| ==> ProcessFits(s, p))
  }

  ghost predicate ProcessFits(s: State, p: ProcessId)
    requires p < |s.processes|
  {
    && (Listed(s, p) <==> AtStage(s, p, Watched) || AtStage(s, p, Reaped))
    && (AtStage(s, p, Started) <==> InStartWindow(s, p))
    && (Alive(s, p) ==> AtStage(s, p, Started) || AtStage(s, p, Watched))
  }

  ghost predicate RunnerFits(s: State) {
    LoopFits(s) && TableFits(s)
  }

  lemma StepKeepsProcess(s: State, e: Event, p: ProcessId)
    requires RunnerFits(s) && Enabled(s, e) && p < |Step(s, e).processes|
    ensures ProcessFits(Step(s, e), p)
  {
    if p < |s.processes| {
      assert ProcessFits(s, p);
    }
    match e
    case Receive(_) =>
    case Start(_) =>
    case Insert => assert ProcessFits(s, s.loop.process);
    case Exit(q, _) => assert ProcessFits(s, q);
    case WaitReturns(q) => assert ProcessFits(s, q);
    case Delete(q) => assert ProcessFits(s, q);
    case Report(q) => assert ProcessFits(s, q);
  }

  lemma StepKeepsInv(s: State, e: Event)
    requires RunnerFits(s) && Enabled(s, e)
    ensures RunnerFits(Step(s, e))
  {
    forall p | 0 <= p < |Step(s, e).processes|
      ensures ProcessFits(Step(s, e), p)
    {
      StepKeepsProcess(s, e, p);
    }
    hide ProcessFits;
  }

  ghost predicate Possible(s: State, es: seq<Event>)
    decreases |es|
  {
    es == [] || (Enabled(s, es[0]) && Possible(Step(s, es[0]), es[1..]))
  }

  ghost function Run(s: State, es: seq<Event>): State
    requires Possible(s, es)
    decreases |es|
  {
    if es == [] then s else Run(Step(s, es[0]), es[1..])
  }

  lemma {:induction false} RunKeepsInv(s: State, es: seq<Event>)
    requires RunnerFits(s) && Possible(s, es)
    ensures RunnerFits(Run(s, es))
    decreases |es|
  {
    if es != [] {
      StepKeepsInv(s, es[0]);
      RunKeepsInv(Step(s, es[0]), es[1..]);
    }
  }

  /**
   Over every run, a live process is missing from the table exactly between its start and its
   insertion, and an entry belongs to a dead process exactly between the exit and the deletion.
   */
  lemma TableOverRuns(es: seq<Event>, p: ProcessId)
    requires Possible(INITIAL, es) && p < |Run(INITIAL, es).processes|
    ensures var s := Run(INITIAL, es);
      && (Alive(s, p) ==> (!Listed(s, p) <==> InStartWindow(s, p)))
      && (Listed(s, p) ==> (!Alive(s, p) <==> InExitWindow(s, p)))
      && (InExitWindow(s, p) ==> Listed(s, p))
  {
    RunKeepsInv(INITIAL, es);
    assert ProcessFits(Run(INITIAL, es), p);
  }

  /** Over every run, a command has at most one live process, in the window or out of it. */
  lemma OneLivePerCommand(es: seq<Event>, p: ProcessId, q: ProcessId)
    requires Possible(INITIAL, es)
    requires Alive(Run(INITIAL, es), p) && Alive(Run(INITIAL, es), q)
    requires Run(INITIAL, es).processes[p].command == Run(INITIAL, es).processes[q].command
    ensures p == q
  {
    var s := Run(INITIAL, es);
    RunKeepsInv(INITIAL, es);
    assert ProcessFits(s, p) && ProcessFits(s, q);
  }

  /** Both windows occur: a live process that is not listed, and a listed one that is dead. */
  lemma BothWindowsOccur(c: CommandId, status: WaitStatus)
    ensures var es := [Receive(c), Start(true)];
      Possible(INITIAL, es) && Alive(Run(INITIAL, es), 0) && !Listed(Run(INITIAL, es), 0)
    ensures var es := [Receive(c), Start(true), Insert, Exit(0, status)];
      Possible(INITIAL, es) && !Alive(Run(INITIAL, es), 0) && Listed(Run(INITIAL, es), 0)
  {
    var s1 := Step(INITIAL, Receive(c));
    var s2 := Step(s1, Start(true));
    var s3 := Step(s2, Insert);
    var s4 := Step(s3, Exit(0, status));
    UnrollTwo(INITIAL, Receive(c), Start(true), []);
    UnrollTwo(INITIAL, Receive(c), Start(true), [Insert, Exit(0, status)]);
    UnrollTwo(s2, Insert, Exit(0, status), []);
    assert [Receive(c), Start(true)] + [] == [Receive(c), Start(true)];
    assert [Receive(c), Start(true)] + [Insert, Exit(0, status)] == [Receive(c), Start(true), Insert, Exit(0, status)];
    assert [Insert, Exit(0, status)] + [] == [Insert, Exit(0, status)];
  }

  lemma UnrollOne(s: State, a: Event)
    requires Enabled(s, a)
    ensures Possible(s, [a]) && Run(s, [a]) == Step(s, a)
  {
    assert [a][1..] == [];
  }

  lemma UnrollTwo(s: State, a: Event, b: Event, rest: seq<Event>)
    requires Enabled(s, a) && Enabled(Step(s, a), b)
    ensures Possible(s, [a, b] + rest) <==> Possible(Step(Step(s, a), b), rest)
    ensures Possible(s, [a, b] + rest) ==> Run(s, [a, b] + rest) == Run(Step(Step(s, a), b), rest)
  {
    var es := [a, b] + rest;
    assert es[0] == a && es[1..] == [b] + rest;
    assert es[1..][0] == b && es[1..][1..] == rest;
  }

  // ---------- every accepted command is reported once ----------

  function SentFor(sent: seq<ExecResult>, c: CommandId): nat {
    if sent == [] then 0
    else SentFor(sent[..|sent| - 1], c) + if sent[|sent| - 1].command == c then 1 else 0
  }

  /** Processes of the command that have not reported yet. */
  ghost function Unreported(s: State, c: CommandId): set<ProcessId> {
    set p | 0 <= p < |s.processes| && s.processes[p].command == c && !s.processes[p].stage.Reported?
  }

  function HeldByLoop(s: State, c: CommandId): nat {
    if s.loop == Checked(c) then 1 else 0
  }

  /** Every acceptance has been reported, is held by the loop, or has a process that will report. */
  ghost predicate Balanced(s: State, c: CommandId) {
    multiset(s.accepted)[c] == SentFor(s.sent, c) + HeldByLoop(s, c) + |Unreported(s, c)|
  }

  lemma SentSnoc(sent: seq<ExecResult>, r: ExecResult, c: CommandId)
    ensures SentFor(sent + [r], c) == SentFor(sent, c) + if r.command == c then 1 else 0
  {
    assert (sent + [r])[..|sent|] == sent;
  }

  /** The processes that a step adds to the unreported ones of a command, and takes from them. */
  ghost function Joining(s: State, e: Event, c: CommandId): set<ProcessId> {
    if e == Start(true) && s.loop == Checked(c) then {|s.processes|} else {}
  }

  ghost function Leaving(s: State, e: Event, c: CommandId): set<ProcessId> {
    if e.Report? && e.process < |s.processes| && s.processes[e.process].command == c then {e.process} else {}
  }

  lemma UnreportedAtStep(s: State, e: Event, c: CommandId)
    requires LoopFits(s) && Enabled(s, e)
    ensures Unreported(Step(s, e), c) == Unreported(s, c) + Joining(s, e, c) - Leaving(s, e, c)
    ensures Joining(s, e, c) !! Unreported(s, c) && Leaving(s, e, c) <= Unreported(s, c)
  {
    forall p
      ensures p in Unreported(Step(s, e), c) <==> p in Unreported(s, c) + Joining(s, e, c) - Leaving(s, e, c)
    {
    }
  }

  lemma UnreportedCount(s: State, e: Event, c: CommandId)
    requires LoopFits(s) && Enabled(s, e)
    ensures |Unreported(Step(s, e), c)| == |Unreported(s, c)| + |Joining(s, e, c)| - |Leaving(s, e, c)|
  {
    hide Unreported, Joining, Leaving, LoopFits, Step;
    UnreportedAtStep(s, e, c);
  }

  lemma StepKeepsBalance(s: State, e: Event, c: CommandId)
    requires LoopFits(s) && Enabled(s, e) && Balanced(s, c)
    ensures Balanced(Step(s, e), c)
  {
    hide Unreported, SentFor, LoopFits;
    UnreportedCount(s, e, c);
    match e
    case Start(ok) =>
      if !ok { SentSnoc(s.sent, ExecResult(s.loop.command, -1), c); }
    case Report(p) => 
      SentSnoc(s.sent, ExecResult(s.processes[p].command, ReportedCode(s.processes[p].status.value)), c);
    case _ =>
  }

  lemma {:induction false} RunKeepsBalance(s: State, es: seq<Event>, c: CommandId)
    requires RunnerFits(s) && Balanced(s, c) && Possible(s, es)
    ensures Balanced(Run(s, es), c)
    decreases |es|
  {
    if es != [] {
      StepKeepsInv(s, es[0]);
      StepKeepsBalance(s, es[0], c);
      RunKeepsBalance(Step(s, es[0]), es[1..], c);
    }
  }

  /** When the agent has come to rest, every accepted command has been reported exactly once. */
  lemma AcceptedIsReportedOnce(es: seq<Event>, c: CommandId)
    requires Possible(INITIAL, es) && Run(INITIAL, es).loop.Reading?
    requires forall p :: 0 <= p < |Run(INITIAL, es).processes| ==> Run(INITIAL, es).processes[p].stage.Reported?
    ensures SentFor(Run(INITIAL, es).sent, c) == multiset(Run(INITIAL, es).accepted)[c]
  {
    NoMembers(Unreported(INITIAL, c));
    RunKeepsBalance(INITIAL, es, c);
    NoMembers(Unreported(Run(INITIAL, es), c));
  }

  // ---------- what a report says ----------

  /** A process is gone exactly if it exited before or during the run, and its wait status is the one it exited with. */
  lemma {:induction false} StatusIsExit(s: State, es: seq<Event>, p: ProcessId, status: WaitStatus)
    requires Possible(s, es) && p < |Run(s, es).processes| && Run(s, es).processes[p].status == Some(status)
    ensures (p < |s.processes| && s.processes[p].status == Some(status)) || Exit(p, status) in es
    decreases |es|
  {
    if es != [] {
      StatusIsExit(Step(s, es[0]), es[1..], p, status);
      assert es[0] in es && forall e :: e in es[1..] ==> e in es;
    }
  }

  /** The read loop accepted the command and then could not start it. */
  ghost predicate StartFailed(s: State, es: seq<Event>, c: CommandId)
    requires Possible(s, es)
    decreases |es|
  {
    es != [] && ((s.loop == Checked(c) && es[0] == Start(false)) || StartFailed(Step(s, es[0]), es[1..], c))
  }

  /** The message tells how a process of the command ended. */
  ghost predicate TellsEnd(s: State, m: ExecResult, p: ProcessId) {
    && p < |s.processes| && s.processes[p].command == m.command && s.processes[p].stage.Reported?
    && s.processes[p].status.Some? && m.exitCode == ReportedCode(s.processes[p].status.value)
  }

  ghost predicate ReportsFit(s: State) {
    forall p :: 0 <= p < |s.processes| && s.processes[p].stage.Reported? ==>
      && s.processes[p].status.Some?
      && ExecResult(s.processes[p].command, ReportedCode(s.processes[p].status.value)) in s.sent
  }

  lemma StepKeepsReports(s: State, e: Event)
    requires RunnerFits(s) && ReportsFit(s) && Enabled(s, e)
    ensures ReportsFit(Step(s, e))
  {
    if e.Insert? {
      assert ProcessFits(s, s.loop.process);
    }
  }

  lemma EndStays(s: State, e: Event, m: ExecResult, p: ProcessId)
    requires RunnerFits(s) && Enabled(s, e) && TellsEnd(s, m, p)
    ensures TellsEnd(Step(s, e), m, p)
  {
    assert ProcessFits(s, p);
  }

  lemma {:induction false} RunKeepsReports(s: State, es: seq<Event>)
    requires RunnerFits(s) && ReportsFit(s) && Possible(s, es)
    ensures ReportsFit(Run(s, es))
    decreases |es|
  {
    if es != [] {
      StepKeepsInv(s, es[0]);
      StepKeepsReports(s, es[0]);
      RunKeepsReports(Step(s, es[0]), es[1..]);
    }
  }

  lemma {:induction false} SentTellsEnd(s: State, es: seq<Event>, m: ExecResult)
    requires RunnerFits(s) && Possible(s, es) && m in Run(s, es).sent
    requires m in s.sent ==> exists p: ProcessId :: TellsEnd(s, m, p)
    ensures (exists p: ProcessId :: TellsEnd(Run(s, es), m, p)) || (m.exitCode == -1 && StartFailed(s, es, m.command))
    decreases |es|
  {
    if es != [] {
      var e := es[0];
      StepKeepsInv(s, e);
      if p: ProcessId :| TellsEnd(s, m, p) {
        EndStays(s, e, m, p);
      } else if m in Step(s, e).sent {
        if e.Report? {
          assert TellsEnd(Step(s, e), m, e.process);
        }
      }
      if m !in Step(s, e).sent || exists p: ProcessId :: TellsEnd(Step(s, e), m, p) {
        SentTellsEnd(Step(s, e), es[1..], m);
      }
    }
  }

  /**
   Over every run, a message says how a process of its command ended: with the code it exited with, the negated
   signal that killed it, or -1 if nothing is known; or it says -1 because the command could not be started.
   */
  lemma MessagesTellTheTruth(es: seq<Event>, m: ExecResult)
    requires Possible(INITIAL, es) && m in Run(INITIAL, es).sent
    ensures
      || (exists p: ProcessId, status ::
           Exit(p, status) in es && p < |Run(INITIAL, es).processes|
           && Run(INITIAL, es).processes[p].command == m.command && m.exitCode == ReportedCode(status))
      || (m.exitCode == -1 && StartFailed(INITIAL, es, m.command))
  {
    SentTellsEnd(INITIAL, es, m);
    if p: ProcessId :| TellsEnd(Run(INITIAL, es), m, p) {
      StatusIsExit(INITIAL, es, p, Run(INITIAL, es).processes[p].status.value);
    }
  }

  /** And once a process has reported, how it exited is among the messages. */
  lemma ReportedIsSent(es: seq<Event>, p: ProcessId)
    requires Possible(INITIAL, es) && p < |Run(INITIAL, es).processes|
    requires Run(INITIAL, es).processes[p].stage.Reported?
    ensures exists status ::
      && Exit(p, status) in es
      && ExecResult(Run(INITIAL, es).processes[p].command, ReportedCode(status)) in Run(INITIAL, es).sent
  {
    RunKeepsReports(INITIAL, es);
    StatusIsExit(INITIAL, es, p, Run(INITIAL, es).processes[p].status.value);
  }

  lemma CompletionReports(s: State, c: CommandId)
    requires s == State(Reading, map[c := 0], [Process(c, Watched, Some(Exited(1)))], [], [c])
    ensures Possible(s, Completion(0)) && Run(s, Completion(0)).sent == [ExecResult(c, 1)]
  {
    UnrollCompletion(s, 0);
  }

  /** A command that exits with status 1 is reported with exit code 1. */
  lemma FailureIsReported(c: CommandId)
    ensures var es := [Receive(c), Start(true), Insert, Exit(0, Exited(1)), WaitReturns(0), Delete(0), Report(0)];
      Possible(INITIAL, es) && Run(INITIAL, es).sent == [ExecResult(c, 1)]
  {
    var es := [Receive(c), Start(true), Insert, Exit(0, Exited(1))];
    var s1 := Step(INITIAL, Receive(c));
    var s2 := Step(s1, Start(true));
    var s3 := Step(s2, Insert);
    var s4 := Step(s3, Exit(0, Exited(1)));
    assert s4 == State(Reading, map[c := 0], [Process(c, Watched, Some(Exited(1)))], [], [c]);
    CompletionReports(s4, c);
    hide Possible, Run;
    UnrollTwo(s2, Insert, Exit(0, Exited(1)), Completion(0));
    UnrollTwo(INITIAL, Receive(c), Start(true), [Insert, Exit(0, Exited(1))] + Completion(0));
    assert [Receive(c), Start(true)] + ([Insert, Exit(0, Exited(1))] + Completion(0)) ==
      [Receive(c), Start(true), Insert, Exit(0, Exited(1)), WaitReturns(0), Delete(0), Report(0)];
  }

  /** And one that cannot be started with -1. */
  lemma FailedStartIsReported(c: CommandId)
    ensures var es := [Receive(c), Start(false)];
      Possible(INITIAL, es) && Run(INITIAL, es).sent == [ExecResult(c, -1)] && StartFailed(INITIAL, es, c)
  {
    UnrollTwo(INITIAL, Receive(c), Start(false), []);
    assert [Receive(c), Start(false)] + [] == [Receive(c), Start(false)];
    assert [Receive(c), Start(false)][1..] == [Start(false)];
  }
}
