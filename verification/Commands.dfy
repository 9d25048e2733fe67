/**
 Commands pending on agents: futures, the tables that hold them, and the connection records that
 share those tables across reconnects. Objects the system refers to by reference (connection
 records, pending tables, futures) are numbered in the order of their creation, so that a table
 shared by two records is one number in both.
 */
module Commands {
  import opened Wrappers
  import opened Listing
  import CommandRunner

  type AgentId = int
  type CommandId = CommandRunner.CommandId
  type ExecResult = CommandRunner.ExecResult

  /** What completes a future: the agent's message, or one of two synthetic results. */
  datatype CommandResult = FromAgent(message: ExecResult) | ConnectionLost | NotConnected

  datatype FutureState = Waiting | Done(result: CommandResult) | TimedOut

  datatype Future = Future(agent: AgentId, command: CommandId, state: FutureState)

  datatype Entry = Entry(future: nat, running: bool)

  type Table = map<CommandId, Entry>

  datatype Conn = Conn(agent: AgentId, table: nat, alive: bool)

  /** The server's records, and the agents' own state. */
  datatype State = State(
    conns: seq<Conn>,
    tables: seq<Table>,
    current: map<AgentId, nat>,
    futures: seq<Future>,
    agents: map<AgentId, CommandRunner.State>
  )

  const INITIAL := State([], [], map[], [], map[])

  function AgentOf(s: State, agent: AgentId): CommandRunner.State {
    if agent in s.agents then s.agents[agent] else CommandRunner.INITIAL
  }

  datatype Event =
    | Connect(agent: AgentId)
    | Register(agent: AgentId, command: CommandId)
    | Promote(agent: AgentId, command: CommandId)
    | Deliver(conn: nat, message: ExecResult)
    | TimeOut(future: nat)
    | Cleanup(agent: AgentId, command: CommandId)
    | Disconnect(agent: AgentId, handle: Option<nat>)
    | Heartbeat(conn: nat)
    | GraceExpired(agent: AgentId)
    | Stop
    | AgentStep(agent: AgentId, step: CommandRunner.Event)

  // ---------- well-formed states ----------

  /** References are in range. */
  predicate InRange(s: State) {
    && (forall c :: 0 <= c < |s.conns| ==> s.conns[c].table < |s.tables|)
    && (forall a :: a in s.current ==> s.current[a] < |s.conns| && s.conns[s.current[a]].agent == a)
    && (forall t, k :: 0 <= t < |s.tables| && k in s.tables[t] ==> s.tables[t][k].future < |s.futures|)
  }

  /** Which message can arrive, which future can time out, and so on. */
  predicate Enabled(s: State, e: Event) {
    match e
    case Deliver(conn, message) => conn < |s.conns| && message in AgentOf(s, s.conns[conn].agent).sent
    case TimeOut(future) => future < |s.futures|
    case Heartbeat(conn) => conn < |s.conns|
    case AgentStep(agent, step) => CommandRunner.Enabled(AgentOf(s, agent), step)
    case _ => true
  }

  // ---------- one step ----------

  function CurrentTable(s: State, agent: AgentId): nat
    requires InRange(s) && agent in s.current
  {
    s.conns[s.current[agent]].table
  }

  /** Completes a future unless it is already done. */
  function Completed(f: Future, result: CommandResult): Future {
    if f.state.Waiting? then f.(state := Done(result)) else f
  }

  /** Takes the command out of the table and completes its future. */
  function Pop(s: State, t: nat, command: CommandId, result: CommandResult): State
    requires InRange(s) && t < |s.tables|
  {
    if command !in s.tables[t] then s
    else
      var f := s.tables[t][command].future;
      s.(tables := s.tables[t := s.tables[t] - {command}], futures := s.futures[f := Completed(s.futures[f], result)])
  }

  /** What failing a table does to a future. */
  function CompletedIf(mentioned: bool, f: Future): Future {
    if mentioned then Completed(f, ConnectionLost) else f
  }

  /** Whether the table mentions the future. */
  predicate Mentions(table: Table, f: nat) {
    exists k :: k in table && table[k].future == f
  }

  /** Fails every command of a table. */
  function PopAll(s: State, t: nat): State
    requires InRange(s) && t < |s.tables|
  {
    s.(tables := s.tables[t := map[]],
       futures := seq(|s.futures|, f requires 0 <= f < |s.futures| =>
         CompletedIf(Mentions(s.tables[t], f), s.futures[f])))
  }

  /** Whether a table belongs to a connection that is current. */
  predicate IsCurrentTable(s: State, t: nat)
    requires InRange(s)
  {
    exists a :: a in s.current && s.conns[s.current[a]].table == t
  }

  /** Fails every command of every connected agent and forgets the connections. */
  function StopAll(s: State): State
    requires InRange(s)
  {
    s.(current := map[],
       tables := seq(|s.tables|, t requires 0 <= t < |s.tables| => if IsCurrentTable(s, t) then map[] else s.tables[t]),
       futures := seq(|s.futures|, f requires 0 <= f < |s.futures| =>
         CompletedIf(exists a :: a in s.current && Mentions(s.tables[CurrentTable(s, a)], f), s.futures[f])))
  }

  function Step(s: State, e: Event): State
    requires InRange(s) && Enabled(s, e)
  {
    match e
    case Connect(agent) =>
      if agent in s.current then
        s.(conns := s.conns + [Conn(agent, CurrentTable(s, agent), true)], current := s.current[agent := |s.conns|])
      else
        s.(conns := s.conns + [Conn(agent, |s.tables|, true)], tables := s.tables + [map[]],
           current := s.current[agent := |s.conns|])
    case Register(agent, command) =>
      if agent !in s.current then
        s.(futures := s.futures + [Future(agent, command, Done(NotConnected))])
      else
        var t := CurrentTable(s, agent);
        s.(futures := s.futures + [Future(agent, command, Waiting)],
           tables := s.tables[t := s.tables[t][command := Entry(|s.futures|, false)]])
    case Promote(agent, command) =>
      if agent in s.current && command in s.tables[CurrentTable(s, agent)] then
        var t := CurrentTable(s, agent);
        s.(tables := s.tables[t := s.tables[t][command := s.tables[t][command].(running := true)]])
      else s
    case Deliver(conn, message) => Pop(s, s.conns[conn].table, message.command, FromAgent(message))
    case TimeOut(f) =>
      if s.futures[f].state.Waiting? then s.(futures := s.futures[f := s.futures[f].(state := TimedOut)]) else s
    case Cleanup(agent, command) =>
      if agent in s.current then Pop(s, CurrentTable(s, agent), command, ConnectionLost) else s
    case Disconnect(agent, handle) =>
      if agent in s.current && (handle.None? || handle.value == s.current[agent]) then
        s.(conns := s.conns[s.current[agent] := s.conns[s.current[agent]].(alive := false)])
      else s
    case Heartbeat(conn) => s.(conns := s.conns[conn := s.conns[conn].(alive := true)])
    case GraceExpired(agent) =>
      if agent in s.current && !s.conns[s.current[agent]].alive then
        PopAll(s, CurrentTable(s, agent)).(current := s.current - {agent})
      else s
    case Stop => StopAll(s)
    case AgentStep(agent, step) =>
      s.(agents := s.agents[agent := CommandRunner.Step(AgentOf(s, agent), step)])
  }

  // ---------- what holds in every reachable state ----------

  /** A connection's table holds futures of that connection's agent, each under its own command. */
  ghost predicate TablesMatch(s: State)
    requires InRange(s)
  {
    forall c, k :: 0 <= c < |s.conns| && k in s.tables[s.conns[c].table] ==> Matches(s, c, k)
  }

  ghost predicate Matches(s: State, c: nat, k: CommandId)
    requires InRange(s) && c < |s.conns| && k in s.tables[s.conns[c].table]
  {
    var f := s.futures[s.tables[s.conns[c].table][k].future];
    f.agent == s.conns[c].agent && f.command == k
  }

  /** Only tables of current connections hold anything. */
  ghost predicate OthersEmpty(s: State)
    requires InRange(s)
  {
    forall t :: 0 <= t < |s.tables| && s.tables[t] != map[] ==> IsCurrentTable(s, t)
  }

  /** No two agents share a table. */
  ghost predicate TablesApart(s: State)
    requires InRange(s)
  {
    forall c, d :: 0 <= c < |s.conns| && 0 <= d < |s.conns| && s.conns[c].table == s.conns[d].table ==>
      s.conns[c].agent == s.conns[d].agent
  }

  /** A future that is not done is in the pending table of its agent's current connection. */
  ghost predicate WaitingIsPending(s: State)
    requires InRange(s)
  {
    forall f :: 0 <= f < |s.futures| && s.futures[f].state.Waiting? ==> IsPending(s, f)
  }

  ghost predicate IsPending(s: State, f: nat)
    requires InRange(s) && f < |s.futures|
  {
    var a, k := s.futures[f].agent, s.futures[f].command;
    a in s.current && k in s.tables[CurrentTable(s, a)] && s.tables[CurrentTable(s, a)][k].future == f
  }

  /** A result that is not synthetic is one the agent produced for this very command. */
  ghost predicate ResultsGenuine(s: State) {
    forall f :: 0 <= f < |s.futures| ==> Genuine(s, s.futures[f])
  }

  ghost predicate Genuine(s: State, f: Future) {
    f.state.Done? && f.state.result.FromAgent? ==>
      f.state.result.message.command == f.command && f.state.result.message in AgentOf(s, f.agent).sent
  }

  ghost predicate Inv(s: State) {
    InRange(s) && TablesMatch(s) && OthersEmpty(s) && TablesApart(s) && WaitingIsPending(s) && ResultsGenuine(s)
  }

  /** A registration that replaces a command whose future still waits. */
  predicate Orphans(s: State, e: Event)
    requires InRange(s)
  {
    e.Register? && e.agent in s.current && e.command in s.tables[CurrentTable(s, e.agent)] &&
    s.futures[s.tables[CurrentTable(s, e.agent)][e.command].future].state.Waiting?
  }

  lemma InitialInv()
    ensures Inv(INITIAL)
  {
  }

  /** A reconnecting agent gets a new record that shares the old one's table. */
  lemma ReconnectKeeps(s: State, agent: AgentId)
    requires Inv(s) && agent in s.current
    ensures Inv(Step(s, Connect(agent)))
  {
    hide OthersEmpty, IsCurrentTable;
    var s' := Step(s, Connect(agent));
    var record := Conn(agent, CurrentTable(s, agent), true);
    assert s'.conns == s.conns + [record] && s'.tables == s.tables && s'.futures == s.futures;
    TablesStayCurrent(s, s', agent);
    forall f | 0 <= f < |s'.futures| && s'.futures[f].state.Waiting?
      ensures IsPending(s', f)
    {
      assert IsPending(s, f);
    }
    var before := s.conns[s.current[agent]];
    assert forall c :: 0 <= c < |s.conns| ==> s'.conns[c] == s.conns[c];
    assert before.agent == record.agent && before.table == record.table;
  }

  lemma TablesStayCurrent(s: State, s': State, agent: AgentId)
    requires InRange(s) && InRange(s') && OthersEmpty(s) && s'.tables == s.tables
    requires |s.conns| < |s'.conns| && s'.conns[..|s.conns|] == s.conns
    requires agent in s.current && s'.current == s.current[agent := |s.conns|]
    requires s'.conns[|s.conns|].table == CurrentTable(s, agent)
    ensures OthersEmpty(s')
  {
    forall t | 0 <= t < |s'.tables| && s'.tables[t] != map[]
      ensures IsCurrentTable(s', t)
    {
      assert IsCurrentTable(s, t);
      var a :| a in s.current && s.conns[s.current[a]].table == t;
      assert s'.conns[s'.current[a]].table == t;
    }
  }

  /** An unknown agent gets a record with a table of its own. */
  lemma FirstConnectKeeps(s: State, agent: AgentId)
    requires Inv(s) && agent !in s.current
    ensures Inv(Step(s, Connect(agent)))
  {
    FirstConnectTables(s, agent);
    FirstConnectCurrent(s, agent);
    FirstConnectPending(s, agent);
    hide TablesMatch, OthersEmpty, TablesApart, WaitingIsPending;
  }

  lemma FirstConnectTables(s: State, agent: AgentId)
    requires InRange(s) && TablesMatch(s) && TablesApart(s) && agent !in s.current
    ensures var s' := Step(s, Connect(agent)); InRange(s') && TablesMatch(s') && TablesApart(s')
  {
    var s' := Step(s, Connect(agent));
    assert forall c :: 0 <= c < |s.conns| ==> s'.conns[c] == s.conns[c] && s'.conns[c].table < |s.tables|;
    assert forall t :: 0 <= t < |s.tables| ==> s'.tables[t] == s.tables[t];
    assert s'.tables[|s.tables|] == map[];
    hide Step;
    forall c, k | 0 <= c < |s'.conns| && k in s'.tables[s'.conns[c].table]
      ensures Matches(s', c, k)
    {
      assert c < |s.conns|;
      assert Matches(s, c, k);
    }
  }

  lemma FirstConnectCurrent(s: State, agent: AgentId)
    requires InRange(s) && OthersEmpty(s) && agent !in s.current && InRange(Step(s, Connect(agent)))
    ensures OthersEmpty(Step(s, Connect(agent)))
  {
    var s' := Step(s, Connect(agent));
    forall t | 0 <= t < |s'.tables| && s'.tables[t] != map[]
      ensures IsCurrentTable(s', t)
    {
      assert IsCurrentTable(s, t);
      var a :| a in s.current && s.conns[s.current[a]].table == t;
      assert s'.conns[s'.current[a]].table == t;
    }
  }

  lemma FirstConnectPending(s: State, agent: AgentId)
    requires InRange(s) && WaitingIsPending(s) && agent !in s.current && InRange(Step(s, Connect(agent)))
    ensures WaitingIsPending(Step(s, Connect(agent)))
  {
  }

  /** While records and connections stay as they are, only tables that get a first entry matter. */
  lemma OthersStayEmpty(s: State, s': State)
    requires InRange(s) && InRange(s') && OthersEmpty(s) && s'.conns == s.conns && s'.current == s.current
    requires |s'.tables| == |s.tables|
    requires forall t :: 0 <= t < |s.tables| && s'.tables[t] != map[] ==> s.tables[t] != map[] || IsCurrentTable(s, t)
    ensures OthersEmpty(s')
  {
  }

  lemma CurrentTableIsCurrent(s: State, agent: AgentId)
    requires InRange(s) && agent in s.current
    ensures IsCurrentTable(s, CurrentTable(s, agent))
  {
  }

  /** A future of an agent that is not connected is done from the start. */
  lemma NotConnectedKeeps(s: State, agent: AgentId, command: CommandId)
    requires Inv(s)
    ensures Inv(s.(futures := s.futures + [Future(agent, command, Done(NotConnected))]))
  {
  }

  lemma RegisterKeeps(s: State, agent: AgentId, command: CommandId)
    requires Inv(s) && agent in s.current && !Orphans(s, Register(agent, command))
    ensures Inv(Step(s, Register(agent, command)))
  {
    hide OthersEmpty, IsCurrentTable;
    var s' := Step(s, Register(agent, command));
    CurrentTableIsCurrent(s, agent);
    OthersStayEmpty(s, s');
    assert forall f :: 0 <= f < |s.futures| ==> s'.futures[f] == s.futures[f];
    forall f | 0 <= f < |s'.futures| && s'.futures[f].state.Waiting?
      ensures IsPending(s', f)
    {
      if f < |s.futures| {
        assert IsPending(s, f);
      }
    }
  }

  lemma PromoteKeeps(s: State, agent: AgentId, command: CommandId)
    requires Inv(s)
    ensures Inv(Step(s, Promote(agent, command)))
  {
    hide OthersEmpty, IsCurrentTable;
    var s' := Step(s, Promote(agent, command));
    OthersStayEmpty(s, s');
    forall f | 0 <= f < |s'.futures| && s'.futures[f].state.Waiting?
      ensures IsPending(s', f)
    {
      assert IsPending(s, f);
    }
  }

  /** Popping a command from a live table. */
  lemma PopKeeps(s: State, c: nat, command: CommandId, result: CommandResult)
    requires Inv(s) && c < |s.conns|
    requires result.FromAgent? ==>
      result.message.command == command && result.message in AgentOf(s, s.conns[c].agent).sent
    ensures Inv(Pop(s, s.conns[c].table, command, result))
  {
    hide OthersEmpty, IsCurrentTable;
    var t := s.conns[c].table;
    var s' := Pop(s, t, command, result);
    if command in s.tables[t] {
      var p := s.tables[t][command].future;
      assert s.futures[p].agent == s.conns[c].agent && s.futures[p].command == command;
      OthersStayEmpty(s, s');
      forall f | 0 <= f < |s'.futures| && s'.futures[f].state.Waiting?
        ensures IsPending(s', f)
      {
        assert IsPending(s, f);
      }
    }
  }

  lemma TimeOutKeeps(s: State, f: nat)
    requires Inv(s) && f < |s.futures|
    ensures Inv(Step(s, TimeOut(f)))
  {
    hide OthersEmpty, IsCurrentTable;
    var s' := Step(s, TimeOut(f));
    forall g | 0 <= g < |s'.futures| && s'.futures[g].state.Waiting?
      ensures IsPending(s', g)
    {
      assert IsPending(s, g);
    }
    OthersStayEmpty(s, s');
  }

  /** Turning a connection record's flag keeps everything. */
  lemma FlagKeeps(s: State, c: nat, alive: bool)
    requires Inv(s) && c < |s.conns|
    ensures Inv(s.(conns := s.conns[c := s.conns[c].(alive := alive)]))
  {
  }

  lemma GraceLeavesOthersEmpty(s: State, agent: AgentId)
    requires InRange(s) && OthersEmpty(s) && agent in s.current
    ensures var s' := PopAll(s, CurrentTable(s, agent)).(current := s.current - {agent});
      InRange(s') && OthersEmpty(s')
  {
    var s' := PopAll(s, CurrentTable(s, agent)).(current := s.current - {agent});
    forall u | 0 <= u < |s'.tables| && s'.tables[u] != map[]
      ensures IsCurrentTable(s', u)
    {
      var a :| a in s.current && s.conns[s.current[a]].table == u;
      assert a in s'.current;
    }
  }

  lemma GraceKeeps(s: State, agent: AgentId)
    requires Inv(s) && agent in s.current
    ensures Inv(PopAll(s, CurrentTable(s, agent)).(current := s.current - {agent}))
  {
    hide OthersEmpty, IsCurrentTable;
    var t := CurrentTable(s, agent);
    var s' := PopAll(s, t).(current := s.current - {agent});
    GraceLeavesOthersEmpty(s, agent);
    forall f | 0 <= f < |s'.futures| && s'.futures[f].state.Waiting?
      ensures IsPending(s', f)
    {
      assert IsPending(s, f);
      assert !Mentions(s.tables[t], f);
    }
  }

  lemma StopKeeps(s: State)
    requires Inv(s)
    ensures Inv(StopAll(s))
  {
  }

  /** Whatever an agent does, it never takes back a result. */
  lemma AgentKeeps(s: State, agent: AgentId, after: CommandRunner.State)
    requires Inv(s) && forall m :: m in AgentOf(s, agent).sent ==> m in after.sent
    ensures Inv(s.(agents := s.agents[agent := after]))
  {
    hide OthersEmpty, IsCurrentTable;
    var s' := s.(agents := s.agents[agent := after]);
    OthersStayEmpty(s, s');
    forall g | 0 <= g < |s'.futures| && s'.futures[g].state.Waiting?
      ensures IsPending(s', g)
    {
      assert IsPending(s, g);
    }
    forall f | 0 <= f < |s.futures|
      ensures Genuine(s', s.futures[f])
    {
      assert Genuine(s, s.futures[f]);
    }
  }

  /** Every step keeps every invariant. */
  lemma StepKeepsInv(s: State, e: Event)
    requires Inv(s) && Enabled(s, e) && !Orphans(s, e)
    ensures Inv(Step(s, e))
  {
    hide TablesMatch, OthersEmpty, TablesApart, WaitingIsPending, ResultsGenuine;
    match e
    case Connect(agent) =>
      if agent in s.current { ReconnectKeeps(s, agent); } else { FirstConnectKeeps(s, agent); }
    case Register(agent, command) =>
      if agent in s.current { RegisterKeeps(s, agent, command); } else { NotConnectedKeeps(s, agent, command); }
    case Promote(agent, command) => PromoteKeeps(s, agent, command);
    case Deliver(conn, message) => PopKeeps(s, conn, message.command, FromAgent(message));
    case TimeOut(f) => TimeOutKeeps(s, f);
    case Cleanup(agent, command) =>
      if agent in s.current { PopKeeps(s, s.current[agent], command, ConnectionLost); }
    case Disconnect(agent, handle) =>
      if agent in s.current { FlagKeeps(s, s.current[agent], false); }
    case Heartbeat(conn) => FlagKeeps(s, conn, true);
    case GraceExpired(agent) =>
      if agent in s.current { GraceKeeps(s, agent); }
    case Stop => StopKeeps(s);
    case AgentStep(agent, step) => AgentKeeps(s, agent, CommandRunner.Step(AgentOf(s, agent), step));
  }

  // ---------- whole runs ----------

  /** Every event is enabled when it happens, and no command id is registered again while it is pending. */
  ghost predicate Possible(s: State, es: seq<Event>)
    requires Inv(s)
    decreases |es|
  {
    es == [] || (Enabled(s, es[0]) && !Orphans(s, es[0]) && (StepKeepsInv(s, es[0]); Possible(Step(s, es[0]), es[1..])))
  }

  ghost function Run(s: State, es: seq<Event>): (r: State)
    requires Inv(s) && Possible(s, es)
    ensures Inv(r)
    decreases |es|
  {
    if es == [] then s else StepKeepsInv(s, es[0]); Run(Step(s, es[0]), es[1..])
  }

  /** A future that is done stays as it is; no step changes what a future belongs to. */
  lemma StepKeepsDone(s: State, e: Event, f: nat)
    requires InRange(s) && Enabled(s, e) && f < |s.futures|
    ensures f < |Step(s, e).futures|
    ensures Step(s, e).futures[f].agent == s.futures[f].agent && Step(s, e).futures[f].command == s.futures[f].command
    ensures !s.futures[f].state.Waiting? ==> Step(s, e).futures[f] == s.futures[f]
  {
  }

  /**
   Every step keeps waiting futures pending, except a registration under the id of a command that is
   still waiting: the future it replaces is pending nowhere any more.
   */
  lemma WaitingKeptIff(s: State, e: Event)
    requires Inv(s) && Enabled(s, e)
    ensures InRange(Step(s, e))
    ensures WaitingIsPending(Step(s, e)) <==> !Orphans(s, e)
  {
    if !Orphans(s, e) {
      StepKeepsInv(s, e);
    } else {
      var f := s.tables[CurrentTable(s, e.agent)][e.command].future;
      var c := s.current[e.agent];
      assert Matches(s, c, e.command);
      assert !IsPending(Step(s, e), f);
    }
  }

  /** The second of two registrations under one id leaves the first future behind. */
  lemma SameIdOrphans(agent: AgentId, command: CommandId)
    ensures var s := Step(Step(INITIAL, Connect(agent)), Register(agent, command));
      Inv(s) && !WaitingIsPending(Step(s, Register(agent, command)))
  {
    InitialInv();
    StepKeepsInv(INITIAL, Connect(agent));
    var first := Step(INITIAL, Connect(agent));
    StepKeepsInv(first, Register(agent, command));
    WaitingKeptIff(Step(first, Register(agent, command)), Register(agent, command));
  }

  // ---------- when a connection counts as lost ----------

  /** A disconnection that concerns the record: its agent's current one, named or not named at all. */
  ghost predicate LosesRecord(s: State, e: Event, c: nat) {
    exists a :: a in s.current && s.current[a] == c && (e == Disconnect(a, None) || e == Disconnect(a, Some(c)))
  }

  /**
   A record goes down at a step exactly when its agent's current connection is reported lost, without a handle or
   with its own, and comes back exactly with a heartbeat.
   */
  lemma GoesDownIff(s: State, e: Event, c: nat)
    requires InRange(s) && Enabled(s, e) && c < |s.conns|
    ensures c < |Step(s, e).conns|
    ensures s.conns[c].alive && !Step(s, e).conns[c].alive <==>
      s.conns[c].alive && exists a ::
        a in s.current && s.current[a] == c && (e == Disconnect(a, None) || e == Disconnect(a, Some(c)))
    ensures !s.conns[c].alive && Step(s, e).conns[c].alive <==> !s.conns[c].alive && e == Heartbeat(c)
    ensures Step(s, e).conns[c].agent == s.conns[c].agent && Step(s, e).conns[c].table == s.conns[c].table
  {
    if e.Disconnect? && e.agent in s.current && s.current[e.agent] == c {
      var handle := e.handle;
      assert handle == None || handle == Some(c) <==>
        e == Disconnect(e.agent, None) || e == Disconnect(e.agent, Some(c));
      assert handle.None? || handle.value == c <==> handle == None || handle == Some(c);
    }
  }

  /** The handle of a record that was replaced changes nothing, nor does a disconnection of an unknown agent. */
  lemma StaleHandleChangesNothing(s: State, a: AgentId, handle: Option<nat>)
    requires InRange(s) && (a in s.current ==> handle.Some? && handle.value != s.current[a])
    ensures Step(s, Disconnect(a, handle)) == s
  {
  }

  /** A new record is alive. */
  lemma StartsAlive(s: State, e: Event, c: nat)
    requires InRange(s) && Enabled(s, e) && |s.conns| <= c < |Step(s, e).conns|
    ensures e.Connect? && c == |s.conns| && Step(s, e).conns[c].agent == e.agent
    ensures Step(s, e).conns[c].alive && e.agent in Step(s, e).current && Step(s, e).current[e.agent] == c
  {
  }

  /** The state before the k-th event of a run. */
  ghost function At(s: State, es: seq<Event>, k: nat): (r: State)
    requires Inv(s) && Possible(s, es) && k <= |es|
    ensures Inv(r)
    decreases |es|
  {
    if k == 0 then s else StepKeepsInv(s, es[0]); At(Step(s, es[0]), es[1..], k - 1)
  }

  /** The k-th event took the record down, and no heartbeat came on it since. */
  ghost predicate LostSince(s: State, es: seq<Event>, c: nat, k: nat)
    requires Inv(s) && Possible(s, es) && k < |es|
  {
    LosesRecord(At(s, es, k), es[k], c) && Heartbeat(c) !in es[k + 1..]
  }

  lemma LostLater(s: State, es: seq<Event>, c: nat, k: nat)
    requires Inv(s) && Possible(s, es) && 0 < k < |es|
    ensures Inv(Step(s, es[0])) && Possible(Step(s, es[0]), es[1..])
    ensures LostSince(s, es, c, k) <==> LostSince(Step(s, es[0]), es[1..], c, k - 1)
  {
    StepKeepsInv(s, es[0]);
    assert es[1..][k..] == es[k + 1..];
  }

  lemma LostAtOnce(s: State, es: seq<Event>, c: nat)
    requires Inv(s) && Possible(s, es) && es != []
    ensures LostSince(s, es, c, 0) <==> LosesRecord(s, es[0], c) && Heartbeat(c) !in es[1..]
  {
  }

  /** Over a run, a record is down if it was taken down and no heartbeat came since, or was down from the start. */
  lemma {:induction false} DownIff(s: State, es: seq<Event>, c: nat)
    requires Inv(s) && Possible(s, es) && c < |Run(s, es).conns|
    ensures !Run(s, es).conns[c].alive <==>
      || (exists k :: 0 <= k < |es| && LostSince(s, es, c, k))
      || (c < |s.conns| && !s.conns[c].alive && Heartbeat(c) !in es)
    decreases |es|
  {
    if es != [] {
      var e, rest := es[0], es[1..];
      StepKeepsInv(s, e);
      var s' := Step(s, e);
      DownIff(s', rest, c);
      LostAtOnce(s, es, c);
      forall k | 0 < k < |es|
        ensures LostSince(s, es, c, k) <==> LostSince(s', rest, c, k - 1)
      {
        LostLater(s, es, c, k);
      }
      DownAtStep(s, e, c);
      hide LostSince, Inv, Step, LosesRecord;
      assert (exists k :: 0 <= k < |es| && LostSince(s, es, c, k)) <==>
        LostSince(s, es, c, 0) || exists k :: 0 <= k < |rest| && LostSince(s', rest, c, k) by {
        if k :| 0 <= k < |rest| && LostSince(s', rest, c, k) {
          assert LostSince(s, es, c, k + 1);
        }
      }
      assert Heartbeat(c) in es <==> e == Heartbeat(c) || Heartbeat(c) in rest;
    }
  }

  lemma DownAtStep(s: State, e: Event, c: nat)
    requires InRange(s) && Enabled(s, e)
    ensures c < |Step(s, e).conns| && !Step(s, e).conns[c].alive <==>
      LosesRecord(s, e, c) || (c < |s.conns| && !s.conns[c].alive && e != Heartbeat(c))
  {
    if c < |s.conns| {
      GoesDownIff(s, e, c);
      hide Step;
    } else if c < |Step(s, e).conns| {
      StartsAlive(s, e, c);
    }
  }

  /**
   Over every run, an agent's current connection counts as lost only if it was reported lost as the current one,
   and no heartbeat came on it since. So the grace period never fails the commands of a connected agent.
   */
  lemma LostMeansDisconnected(es: seq<Event>, c: nat)
    requires Possible(INITIAL, es) && c < |Run(INITIAL, es).conns|
    ensures !Run(INITIAL, es).conns[c].alive <==>
      exists k :: 0 <= k < |es| && Heartbeat(c) !in es[k + 1..] && exists a ::
        && a in At(INITIAL, es, k).current && At(INITIAL, es, k).current[a] == c
        && (es[k] == Disconnect(a, None) || es[k] == Disconnect(a, Some(c)))
  {
    InitialInv();
    DownIff(INITIAL, es, c);
    forall k | 0 <= k < |es|
      ensures LostSince(INITIAL, es, c, k) <==> Heartbeat(c) !in es[k + 1..] && exists a ::
        && a in At(INITIAL, es, k).current && At(INITIAL, es, k).current[a] == c
        && (es[k] == Disconnect(a, None) || es[k] == Disconnect(a, Some(c)))
    {
    }
  }

  /** A reconnection, and then the end of the connection it replaced: the agent stays connected. */
  lemma LateDisconnectIsIgnored(a: AgentId)
    ensures var s := Step(Step(INITIAL, Connect(a)), Connect(a));
      InRange(s) && Step(s, Disconnect(a, Some(0))) == s && s.current == map[a := 1] && s.conns[1].alive
  {
  }

  // ---------- the agents ----------

  ghost predicate AgentsSound(s: State) {
    forall a :: a in s.agents ==> CommandRunner.RunnerFits(s.agents[a])
  }

  /** In every reachable state the agents' tables and read loops are as they should be. */
  lemma {:induction false} AgentsStaySound(s: State, es: seq<Event>)
    requires Inv(s) && Possible(s, es) && AgentsSound(s)
    ensures AgentsSound(Run(s, es))
    decreases |es|
  {
    if es != [] {
      StepKeepsInv(s, es[0]);
      if es[0].AgentStep? {
        CommandRunner.StepKeepsInv(AgentOf(s, es[0].agent), es[0].step);
      }
      AgentsStaySound(Step(s, es[0]), es[1..]);
    }
  }

  /** One agent's own steps in a run of the whole system. */
  ghost function StepsOf(es: seq<Event>, a: AgentId): seq<CommandRunner.Event> {
    if es == [] then []
    else (if es[0].AgentStep? && es[0].agent == a then [es[0].step] else []) + StepsOf(es[1..], a)
  }

  lemma AgentAtStep(s: State, e: Event, a: AgentId)
    requires InRange(s) && Enabled(s, e)
    ensures AgentOf(Step(s, e), a) ==
      if e.AgentStep? && e.agent == a then CommandRunner.Step(AgentOf(s, a), e.step) else AgentOf(s, a)
    ensures e.AgentStep? && e.agent == a ==> CommandRunner.Enabled(AgentOf(s, a), e.step)
  {
    hide CommandRunner.Step;
  }

  /** What becomes of an agent is the run of its own steps. */
  lemma {:induction false} AgentRunsItsSteps(s: State, es: seq<Event>, a: AgentId)
    requires Inv(s) && Possible(s, es)
    ensures CommandRunner.Possible(AgentOf(s, a), StepsOf(es, a))
    ensures AgentOf(Run(s, es), a) == CommandRunner.Run(AgentOf(s, a), StepsOf(es, a))
    decreases |es|
  {
    if es != [] {
      StepKeepsInv(s, es[0]);
      AgentRunsItsSteps(Step(s, es[0]), es[1..], a);
      AgentAtStep(s, es[0], a);
      hide Inv, Step, CommandRunner.Step, AgentOf, InRange;
      if es[0].AgentStep? && es[0].agent == a {
        assert StepsOf(es, a)[1..] == StepsOf(es[1..], a);
      } else {
        assert StepsOf(es, a) == StepsOf(es[1..], a);
      }
    }
  }

  /**
   Over every run of the whole system, a future that is completed by its agent holds how a process of this very
   command ended on this very agent, or -1 if the command could not be started there.
   */
  lemma ResultsTellTheTruth(es: seq<Event>, f: nat, m: ExecResult)
    requires Possible(INITIAL, es) && f < |Run(INITIAL, es).futures|
    requires Run(INITIAL, es).futures[f].state == Done(FromAgent(m))
    ensures m.command == Run(INITIAL, es).futures[f].command
    ensures var steps := StepsOf(es, Run(INITIAL, es).futures[f].agent);
      && CommandRunner.Possible(CommandRunner.INITIAL, steps)
      && var agent := CommandRunner.Run(CommandRunner.INITIAL, steps);
        || (exists p: CommandRunner.ProcessId, status ::
             CommandRunner.Exit(p, status) in steps && p < |agent.processes|
             && agent.processes[p].command == m.command && m.exitCode == CommandRunner.ReportedCode(status))
        || (m.exitCode == -1 && CommandRunner.StartFailed(CommandRunner.INITIAL, steps, m.command))
  {
    var a := Run(INITIAL, es).futures[f].agent;
    InitialInv();
    ReachableIsSound(es, f);
    AgentRunsItsSteps(INITIAL, es, a);
    CommandRunner.MessagesTellTheTruth(StepsOf(es, a), m);
  }

  /** How often a run completes a future. */
  ghost function Completions(s: State, es: seq<Event>, f: nat): nat
    requires Inv(s) && Possible(s, es)
    decreases |es|
  {
    if es == [] then 0
    else
      StepKeepsInv(s, es[0]);
      var s' := Step(s, es[0]);
      (if f < |s.futures| && s.futures[f].state.Waiting? && !s'.futures[f].state.Waiting? then 1 else 0) +
      Completions(s', es[1..], f)
  }

  /** Over every run, a future completes at most once, and not at all once it is done. */
  lemma {:induction false} CompletesAtMostOnce(s: State, es: seq<Event>, f: nat)
    requires Inv(s) && Possible(s, es) && f < |s.futures|
    ensures Completions(s, es, f) <= if s.futures[f].state.Waiting? then 1 else 0
    ensures !s.futures[f].state.Waiting? ==> f < |Run(s, es).futures| && Run(s, es).futures[f] == s.futures[f]
    decreases |es|
  {
    if es != [] {
      StepKeepsInv(s, es[0]);
      StepKeepsDone(s, es[0], f);
      CompletesAtMostOnce(Step(s, es[0]), es[1..], f);
    }
  }

  /** In every reachable state, waiting futures are pending and agent results are genuine. */
  lemma ReachableIsSound(es: seq<Event>, f: nat)
    requires Possible(INITIAL, es) && f < |Run(INITIAL, es).futures|
    ensures Run(INITIAL, es).futures[f].state.Waiting? ==> IsPending(Run(INITIAL, es), f)
    ensures Genuine(Run(INITIAL, es), Run(INITIAL, es).futures[f])
  {
    InitialInv();
  }

  /** The events that complete a waiting future. */
  ghost predicate Completes(s: State, e: Event, f: nat)
    requires InRange(s) && Enabled(s, e) && f < |s.futures|
  {
    var a, k := s.futures[f].agent, s.futures[f].command;
    match e
    case TimeOut(g) => g == f
    case Cleanup(agent, command) => agent == a && command == k
    case Deliver(conn, message) =>
      a in s.current && message.command == k && s.conns[conn].table == CurrentTable(s, a)
    case GraceExpired(agent) => agent == a && a in s.current && !s.conns[s.current[a]].alive
    case Stop => true
    case _ => false
  }

  /**
   A waiting future completes at a step exactly when the step is its own timeout or cleanup, its
   agent's message on a record that shares the table, the grace period of a disconnected agent, or
   the shutdown. Disconnecting and reconnecting leave it waiting.
   */
  lemma WhatCompletes(s: State, e: Event, f: nat)
    requires Inv(s) && Enabled(s, e) && f < |s.futures| && s.futures[f].state.Waiting?
    ensures f < |Step(s, e).futures|
    ensures !Step(s, e).futures[f].state.Waiting? <==> Completes(s, e, f)
    ensures Completes(s, e, f) ==>
      Step(s, e).futures[f].state ==
        if e.Deliver? then Done(FromAgent(e.message)) else if e.TimeOut? then TimedOut else Done(ConnectionLost)
  {
    assert IsPending(s, f);
    var a, k := s.futures[f].agent, s.futures[f].command;
    var t := CurrentTable(s, a);
    match e
    case Deliver(conn, message) =>
      OnlyHolder(s, s.conns[conn].table, message.command, f);
    case Cleanup(agent, command) =>
      if agent in s.current { OnlyHolder(s, CurrentTable(s, agent), command, f); }
    case GraceExpired(agent) =>
      if agent in s.current {
        var u := CurrentTable(s, agent);
        if Mentions(s.tables[u], f) {
          var c :| c in s.tables[u] && s.tables[u][c].future == f;
          OnlyHolder(s, u, c, f);
          assert s.conns[s.current[agent]].agent == agent;
        }
        assert agent == a ==> Mentions(s.tables[u], f);
      }
    case Stop =>
      assert Mentions(s.tables[t], f);
    case _ =>
  }

  /** A waiting future is held by its own agent's current table only, under its own command. */
  lemma OnlyHolder(s: State, t: nat, command: CommandId, f: nat)
    requires Inv(s) && t < |s.tables| && f < |s.futures| && s.futures[f].state.Waiting?
    ensures IsPending(s, f)
    ensures command in s.tables[t] && s.tables[t][command].future == f <==>
      t == CurrentTable(s, s.futures[f].agent) && command == s.futures[f].command
  {
  }

  // ---------- the manager ----------

  class AgentManager {
    var conns: seq<Conn>
    var tables: seq<Table>
    var current: map<AgentId, nat>
    var futures: seq<Future>
    ghost var agents: map<AgentId, CommandRunner.State>

    ghost function View(): State
      reads this
    {
      State(conns, tables, current, futures, agents)
    }

    constructor ()
      ensures View() == INITIAL
    {
      conns, tables, current, futures, agents := [], [], map[], [], map[];
    }

    /** A completed handshake: a new record replaces the old one and takes over its table. */
    method HandleConnection(agent: AgentId) returns (handle: nat)
      requires InRange(View())
      modifies this`conns, this`tables, this`current
      ensures View() == Step(old(View()), Connect(agent)) && handle == |old(conns)|
      ensures current == old(current)[agent := handle]
      ensures conns[..handle] == old(conns) && conns[handle..] == [Conn(agent,
        if agent in old(current) then old(conns[current[agent]].table) else |old(tables)|, true)]
    {
      handle := |conns|;
      if agent in current {
        conns := conns + [Conn(agent, conns[current[agent]].table, true)];
      } else {
        conns := conns + [Conn(agent, |tables|, true)];
        tables := tables + [map[]];
      }
      current := current[agent := handle];
    }

    /** A connection that goes away; a handle that is no longer current is ignored. */
    method Disconnected(agent: AgentId, handle: Option<nat>)
      requires InRange(View())
      modifies this`conns
      ensures View() == Step(old(View()), Disconnect(agent, handle))
      ensures conns ==
        if agent in current && (handle == None || handle == Some(current[agent]))
        then old(conns)[current[agent] := old(conns[current[agent]]).(alive := false)]
        else old(conns)
    {
      if agent !in current || (handle.Some? && handle.value != current[agent]) {
        return;
      }
      conns := conns[current[agent] := conns[current[agent]].(alive := false)];
    }

    /** A new future for a command; an entry under the same id is overwritten. */
    method CreatePending(agent: AgentId, command: CommandId) returns (future: nat)
      requires InRange(View())
      modifies this`tables, this`futures
      ensures View() == Step(old(View()), Register(agent, command))
      ensures InRange(View()) && future == |old(futures)| && future < |futures|
      ensures futures == old(futures) +
        [Future(agent, command, if agent in current then Waiting else Done(NotConnected))]
      ensures agent in current ==>
        tables[conns[current[agent]].table] ==
          old(tables[conns[current[agent]].table])[command := Entry(future, false)]
    {
      future := |futures|;
      if agent !in current {
        futures := futures + [Future(agent, command, Done(NotConnected))];
        return;
      }
      var t := conns[current[agent]].table;
      futures := futures + [Future(agent, command, Waiting)];
      tables := tables[t := tables[t][command := Entry(future, false)]];
    }

    /** The future of a command that is about to be sent: the pending one, or a new one. */
    method PendingFuture(agent: AgentId, command: CommandId) returns (future: nat)
      requires Inv(View())
      modifies this`tables, this`futures
      ensures future < |futures| && futures[future].agent == agent && futures[future].command == command
      ensures View() == old(View()) ||
        (View() == Step(old(View()), Register(agent, command)) && !Orphans(old(View()), Register(agent, command)))
      ensures Inv(View())
    {
      StepKeepsIfNew(View(), agent, command);
      if agent in current && command in tables[conns[current[agent]].table] {
        assert Matches(View(), current[agent], command);
        return tables[conns[current[agent]].table][command].future;
      }
      future := CreatePending(agent, command);
    }

    method PromoteCommand(agent: AgentId, command: CommandId) returns (found: bool)
      requires InRange(View())
      modifies this`tables
      ensures View() == Step(old(View()), Promote(agent, command))
      ensures found <==> agent in current && command in old(tables[conns[current[agent]].table])
      ensures found ==>
        var t := conns[current[agent]].table;
        tables[t] == old(tables)[t][command := Entry(old(tables)[t][command].future, true)]
      ensures !found ==> tables == old(tables)
    {
      if agent !in current || command !in tables[conns[current[agent]].table] {
        return false;
      }
      var t := conns[current[agent]].table;
      tables := tables[t := tables[t][command := tables[t][command].(running := true)]];
      found := true;
    }

    /** Setting a result twice would be an error, so every caller must have looked first. */
    method SetResult(future: nat, result: CommandResult)
      requires future < |futures| && futures[future].state.Waiting?
      modifies this`futures
      ensures futures == old(futures)[future := old(futures)[future].(state := Done(result))]
    {
      futures := futures[future := futures[future].(state := Done(result))];
    }

    /** Takes a command out of a table, completing its future if that is still open. */
    method PopCommand(t: nat, command: CommandId, result: CommandResult)
      requires InRange(View()) && t < |tables|
      modifies this`tables, this`futures
      ensures View() == Pop(old(View()), t, command, result)
      ensures tables == old(tables)[t := old(tables[t]) - {command}]
      ensures command !in old(tables[t]) ==> futures == old(futures)
      ensures command in old(tables[t]) ==>
        var f := old(tables[t][command].future);
        futures == old(futures)[f := old(futures[f]).(state :=
          if old(futures[f].state) == Waiting then Done(result) else old(futures[f].state))]
    {
      if command in tables[t] {
        var f := tables[t][command].future;
        tables := tables[t := tables[t] - {command}];
        if futures[f].state.Waiting? {
          SetResult(f, result);
        } else {
          assert futures == futures[f := futures[f]];
        }
      } else {
        assert tables[t] - {command} == tables[t];
      }
    }

    /** A result message arriving on a connection record, current or not. */
    method ResolvePending(conn: nat, message: ExecResult)
      requires InRange(View()) && Enabled(View(), Deliver(conn, message))
      modifies this`tables, this`futures
      ensures View() == Step(old(View()), Deliver(conn, message))
    {
      PopCommand(conns[conn].table, message.command, FromAgent(message));
    }

    method CleanupCommand(agent: AgentId, command: CommandId)
      requires InRange(View())
      modifies this`tables, this`futures
      ensures View() == Step(old(View()), Cleanup(agent, command))
    {
      if agent in current {
        PopCommand(conns[current[agent]].table, command, ConnectionLost);
      }
    }

    /** Fails every command of a table, one after the other. */
    method CleanupTable(t: nat)
      requires InRange(View()) && t < |tables|
      modifies this`tables, this`futures
      ensures View() == PopAll(old(View()), t)
    {
      hide Pop, PopAll, PoppedSoFar;
      var stale := Enumerate(tables[t].Keys);
      NothingPopped(View(), t);
      assert Elements(stale[..0]) == {};
      for i := 0 to |stale|
        invariant InRange(View()) && t < |tables|
        invariant PoppedSoFar(old(View()), t, Elements(stale[..i]), View())
      {
        ElementsSnoc(stale, i);
        PopOneMore(old(View()), t, Elements(stale[..i]), View(), stale[i]);
        PopCommand(t, stale[i], ConnectionLost);
      }
      assert stale[..|stale|] == stale;
      PoppedAll(old(View()), t, View());
    }

    /** The grace period of an agent ends: a record that was not revived is cleaned and dropped. */
    method CleanupAfterGrace(agent: AgentId)
      requires InRange(View())
      modifies this`tables, this`futures, this`current
      ensures View() == Step(old(View()), GraceExpired(agent))
      ensures current ==
        if agent in old(current) && !conns[old(current)[agent]].alive then old(current) - {agent} else old(current)
    {
      if agent !in current || conns[current[agent]].alive {
        return;
      }
      CleanupTable(conns[current[agent]].table);
      current := current - {agent};
    }

    /** Shutdown: drops every connection and fails whatever it still had pending. */
    method StopManager()
      requires InRange(View())
      modifies this`tables, this`futures, this`current
      ensures View() == Step(old(View()), Stop) && current == map[]
    {
      hide PopAll, StoppedSoFar, StopAll, Mentions, OwnedBy, FutureOf;
      var agents := Enumerate(current.Keys);
      NothingStopped(View());
      assert Elements(agents[..0]) == {};
      for i := 0 to |agents|
        invariant InRange(View()) && conns == old(conns) && |tables| == |old(tables)|
        invariant StoppedSoFar(old(View()), Elements(agents[..i]), View())
      {
        ElementsSnoc(agents, i);
        var agent := agents[i];
        StillCurrent(old(View()), Elements(agents[..i]), View(), agent);
        ghost var now := View();
        var t := conns[current[agent]].table;
        current := current - {agent};
        CleanupTable(t);
        PopAllThenForget(now, t, agent);
        StopOneMore(old(View()), Elements(agents[..i]), now, agent, View());
      }
      assert agents[..|agents|] == agents;
      StoppedAll(old(View()), View());
    }
  }

  /** A table of which some commands have been failed. */
  ghost predicate PoppedSoFar(s: State, t: nat, commands: set<CommandId>, now: State)
    requires InRange(s) && t < |s.tables|
  {
    && now == s.(tables := s.tables[t := s.tables[t] - commands], futures := now.futures)
    && |now.futures| == |s.futures|
    && (forall f :: 0 <= f < |s.futures| ==>
      now.futures[f] == CompletedIf(MentionedBy(s.tables[t], commands, f), s.futures[f]))
  }

  lemma NothingPopped(s: State, t: nat)
    requires InRange(s) && t < |s.tables|
    ensures PoppedSoFar(s, t, {}, s)
  {
    assert s.tables[t] - {} == s.tables[t];
  }

  lemma PopOneMore(s: State, t: nat, commands: set<CommandId>, now: State, k: CommandId)
    requires InRange(s) && InRange(now) && t < |s.tables| && PoppedSoFar(s, t, commands, now)
    requires k in s.tables[t] && k !in commands
    ensures t < |now.tables| && PoppedSoFar(s, t, commands + {k}, Pop(now, t, k, ConnectionLost))
    ensures InRange(Pop(now, t, k, ConnectionLost))
  {
    var after := Pop(now, t, k, ConnectionLost);
    assert s.tables[t] - commands - {k} == s.tables[t] - (commands + {k});
    forall f | 0 <= f < |s.futures|
      ensures MentionedBy(s.tables[t], commands + {k}, f) <==>
        MentionedBy(s.tables[t], commands, f) || s.tables[t][k].future == f
    {
      assert k in commands + {k};
      if MentionedBy(s.tables[t], commands, f) {
        var c :| c in commands && c in s.tables[t] && s.tables[t][c].future == f;
        assert c in commands + {k};
      }
    }
  }

  lemma PoppedAll(s: State, t: nat, now: State)
    requires InRange(s) && t < |s.tables| && PoppedSoFar(s, t, s.tables[t].Keys, now)
    ensures now == PopAll(s, t)
  {
  }

  /** Looking first keeps every invariant. */
  lemma StepKeepsIfNew(s: State, agent: AgentId, command: CommandId)
    requires Inv(s)
    ensures (agent in s.current && command in s.tables[CurrentTable(s, agent)]) ||
      (!Orphans(s, Register(agent, command)) && Inv(Step(s, Register(agent, command))))
  {
    if !(agent in s.current && command in s.tables[CurrentTable(s, agent)]) {
      StepKeepsInv(s, Register(agent, command));
    }
  }

  lemma NothingStopped(s: State)
    requires InRange(s)
    ensures StoppedSoFar(s, {}, s)
  {
  }

  lemma StillCurrent(s: State, agents: set<AgentId>, now: State, a: AgentId)
    requires InRange(s) && StoppedSoFar(s, agents, now) && a in s.current && a !in agents
    ensures a in now.current && now.current[a] == s.current[a]
  {
  }

  /** Forgetting a connection before or after its table is cleaned makes no difference. */
  lemma PopAllThenForget(s: State, t: nat, a: AgentId)
    requires InRange(s) && t < |s.tables|
    ensures InRange(s.(current := s.current - {a}))
    ensures PopAll(s.(current := s.current - {a}), t) == PopAll(s, t).(current := s.current - {a})
  {
  }

  /** Whether one of the agents has the table, or a command of one of them has the future. */
  ghost predicate OwnedBy(s: State, agents: set<AgentId>, t: nat)
    requires InRange(s)
  {
    exists a :: a in agents && a in s.current && CurrentTable(s, a) == t
  }

  ghost predicate FutureOf(s: State, agents: set<AgentId>, f: nat)
    requires InRange(s)
  {
    exists a :: a in agents && a in s.current && Mentions(s.tables[CurrentTable(s, a)], f)
  }

  /** The shutdown after some of the agents have been dealt with. */
  ghost predicate StoppedSoFar(s: State, agents: set<AgentId>, now: State)
    requires InRange(s)
  {
    && now == s.(current := s.current - agents, tables := now.tables, futures := now.futures)
    && |now.tables| == |s.tables| && |now.futures| == |s.futures|
    && (forall t :: 0 <= t < |s.tables| ==> now.tables[t] == if OwnedBy(s, agents, t) then map[] else s.tables[t])
    && (forall f :: 0 <= f < |s.futures| ==> now.futures[f] == CompletedIf(FutureOf(s, agents, f), s.futures[f]))
  }

  lemma StopOneMore(s: State, agents: set<AgentId>, now: State, a: AgentId, after: State)
    requires InRange(s) && InRange(now) && StoppedSoFar(s, agents, now) && a in s.current && a !in agents
    requires after == PopAll(now, CurrentTable(s, a)).(current := now.current - {a})
    ensures StoppedSoFar(s, agents + {a}, after)
  {
    var u := CurrentTable(s, a);
    assert s.current - agents - {a} == s.current - (agents + {a});
    forall t | 0 <= t < |s.tables|
      ensures OwnedBy(s, agents + {a}, t) <==> OwnedBy(s, agents, t) || t == u
    {
      if OwnedBy(s, agents, t) {
        var b :| b in agents && b in s.current && CurrentTable(s, b) == t;
        assert b in agents + {a};
      }
      assert a in agents + {a};
    }
    forall f | 0 <= f < |s.futures|
      ensures FutureOf(s, agents + {a}, f) <==> FutureOf(s, agents, f) || Mentions(s.tables[u], f)
      ensures Mentions(now.tables[u], f) ==> Mentions(s.tables[u], f)
      ensures Mentions(s.tables[u], f) ==> Mentions(now.tables[u], f) || FutureOf(s, agents, f)
    {
      if FutureOf(s, agents, f) {
        var b :| b in agents && b in s.current && Mentions(s.tables[CurrentTable(s, b)], f);
        assert b in agents + {a};
      }
      assert a in agents + {a};
    }
  }

  lemma StoppedAll(s: State, now: State)
    requires InRange(s) && StoppedSoFar(s, s.current.Keys, now)
    ensures now == StopAll(s)
    ensures now.current == map[]
  {
  }

  ghost predicate MentionedBy(table: Table, commands: set<CommandId>, f: nat) {
    exists k :: k in commands && k in table && table[k].future == f
  }
}
