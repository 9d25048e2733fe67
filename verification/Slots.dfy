/**
 Execution slots: a growable semaphore per agent inside an optional global one, taken in the order
 global then agent by any number of executors.
 */
module Slots {
  import opened Wrappers
  import opened Listing

  type AgentId = int
  type ExecutorId = int

  /**
   Free permits and recorded maxima. Without a global semaphore concurrency is unlimited. Global semaphores
   are numbered: the current one is the last that was made, and a removed one keeps its free permits for
   those who still wait on it.
   */
  datatype Permits = Permits(
    global: Option<nat>, globalMax: nat, number: nat, removed: map<nat, nat>,
    agents: map<AgentId, nat>, maxima: map<AgentId, nat>
  )

  /**
   Where one executor stands: which semaphore it waits on was settled when it began to wait; the flag says
   whether it still owns the agent's slot.
   */
  datatype Phase =
    | Idle
    | WaitGlobal(agent: AgentId, maxParallel: int, semaphore: nat)
    | WaitAgent(agent: AgentId)
    | Running(agent: AgentId, slot: bool)

  /** `requested` remembers every capacity an executor asked for. */
  datatype State = State(permits: Permits, executors: map<ExecutorId, Phase>, requested: map<AgentId, set<int>>)

  datatype Event =
    | Configure(max: int)
    | Begin(e: ExecutorId, agent: AgentId, maxParallel: int)
    | TakeGlobal(e: ExecutorId)
    | TimeOutGlobal(e: ExecutorId)
    | TakeAgent(e: ExecutorId)
    | TimeOutAgent(e: ExecutorId)
    | CancelAgentWait(e: ExecutorId)
    | CleanUp(e: ExecutorId)
    | Finish(e: ExecutorId)

  const INITIAL := State(Permits(None, 0, 0, map[], map[], map[]), map[], map[])

  // ---------- the manager's operations ----------

  function ReleaseGlobal(p: Permits): Permits {
    if p.global.Some? then p.(global := Some(p.global.value + 1)) else p
  }

  function ReleaseAgent(p: Permits, agent: AgentId): Permits {
    if agent in p.agents then p.(agents := p.agents[agent := p.agents[agent] + 1]) else p
  }

  function MaximumOf(p: Permits, agent: AgentId): nat {
    if agent in p.maxima then p.maxima[agent] else 0
  }

  /** A larger request raises the agent's capacity, also while slots are held. */
  function Raise(p: Permits, agent: AgentId, maxParallel: int): Permits {
    var before := MaximumOf(p, agent);
    if maxParallel <= before then p
    else
      var free := if agent in p.agents then p.agents[agent] + (maxParallel - before) else maxParallel;
      p.(maxima := p.maxima[agent := maxParallel], agents := p.agents[agent := free])
  }

  /** Capacity only grows; a non-positive value removes the limit, and the next limit is a new semaphore. */
  function Configured(p: Permits, max: int): Permits {
    if max <= 0 then
      p.(global := None, globalMax := 0,
         removed := if p.global.Some? then p.removed[p.number := p.global.value] else p.removed)
    else if max <= p.globalMax then p
    else if p.global.Some? then p.(globalMax := max, global := Some(p.global.value + (max - p.globalMax)))
    else p.(globalMax := max, global := Some(max), number := p.number + 1)
  }

  /** The manager's fields and the methods that change them. */
  class SlotManager {
    var globalSemaphore: Option<nat>
    var globalMax: nat
    var semaphoresMade: nat
    var removedSemaphores: map<nat, nat>
    var agentSemaphores: map<AgentId, nat>
    var agentMaxParallel: map<AgentId, nat>

    function View(): Permits
      reads this
    {
      Permits(globalSemaphore, globalMax, semaphoresMade, removedSemaphores, agentSemaphores, agentMaxParallel)
    }

    constructor ()
      ensures View() == INITIAL.permits
    {
      globalSemaphore, globalMax, semaphoresMade, removedSemaphores := None, 0, 0, map[];
      agentSemaphores, agentMaxParallel := map[], map[];
    }

    method ReleaseAgentSlot(agent: AgentId)
      modifies this`agentSemaphores
      ensures View() == ReleaseAgent(old(View()), agent)
    {
      if agent in agentSemaphores {
        agentSemaphores := agentSemaphores[agent := agentSemaphores[agent] + 1];
      }
    }

    method ReleaseGlobalSlot()
      modifies this`globalSemaphore
      ensures View() == ReleaseGlobal(old(View()))
    {
      if globalSemaphore.Some? {
        globalSemaphore := Some(globalSemaphore.value + 1);
      }
    }

    /** The part of acquiring a slot that runs before any waiting. */
    method RaiseCapacity(agent: AgentId, maxParallel: int)
      requires agent in agentMaxParallel ==> agent in agentSemaphores
      requires agent in agentSemaphores ==> agent in agentMaxParallel
      modifies this`agentSemaphores, this`agentMaxParallel
      ensures View() == Raise(old(View()), agent, maxParallel)
    {
      var currentMax := if agent in agentMaxParallel then agentMaxParallel[agent] else 0;
      if maxParallel > currentMax {
        agentMaxParallel := agentMaxParallel[agent := maxParallel];
        if agent in agentSemaphores {
          for i := 0 to maxParallel - currentMax
            invariant agent in old(agentSemaphores) && agentMaxParallel == old(agentMaxParallel)[agent := maxParallel]
            invariant agentSemaphores == old(agentSemaphores)[agent := old(agentSemaphores)[agent] + i]
          {
            ReleaseAgentSlot(agent);
          }
        } else {
          agentSemaphores := agentSemaphores[agent := maxParallel];
        }
      }
    }

    /** Takes an agent permit if one is free. */
    method TryAgent(agent: AgentId) returns (ok: bool)
      modifies this`agentSemaphores
      ensures ok <==> agent in old(agentSemaphores) && old(agentSemaphores)[agent] > 0
      ensures agentSemaphores ==
        if ok then old(agentSemaphores)[agent := old(agentSemaphores)[agent] - 1] else old(agentSemaphores)
    {
      ok := agent in agentSemaphores && agentSemaphores[agent] > 0;
      if ok {
        agentSemaphores := agentSemaphores[agent := agentSemaphores[agent] - 1];
      }
    }

    /** Takes a global permit if none is needed, or one is free and there is time to ask for it. */
    method TryGlobal(timeout: int) returns (ok: bool)
      modifies this`globalSemaphore
      ensures ok <==> old(globalSemaphore).None? || (old(globalSemaphore).value > 0 && timeout > 0)
      ensures globalSemaphore ==
        if ok && old(globalSemaphore).Some? then Some(old(globalSemaphore).value - 1) else old(globalSemaphore)
    {
      ok := globalSemaphore.None? || (globalSemaphore.value > 0 && timeout > 0);
      if ok && globalSemaphore.Some? {
        globalSemaphore := Some(globalSemaphore.value - 1);
      }
    }

    method ConfigureGlobal(max: int)
      modifies this`globalSemaphore, this`globalMax, this`semaphoresMade, this`removedSemaphores
      ensures View() == Configured(old(View()), max)
    {
      if max <= 0 {
        if globalSemaphore.Some? {
          removedSemaphores := removedSemaphores[semaphoresMade := globalSemaphore.value];
        }
        globalSemaphore, globalMax := None, 0;
        return;
      }
      if max > globalMax {
        if globalSemaphore.Some? {
          for i := 0 to max - globalMax
            invariant globalSemaphore == Some(old(globalSemaphore).value + i)
            invariant semaphoresMade == old(semaphoresMade) && removedSemaphores == old(removedSemaphores)
          {
            ReleaseGlobalSlot();
          }
        } else {
          globalSemaphore, semaphoresMade := Some(max), semaphoresMade + 1;
        }
        globalMax := max;
      }
    }
  }

  /** Raising an agent's capacity and moving a global permit do not interfere. */
  lemma RaiseIgnoresGlobal(p: Permits, agent: AgentId, maxParallel: int)
    ensures forall g :: Raise(p.(global := g), agent, maxParallel) == Raise(p, agent, maxParallel).(global := g)
    ensures var q := Raise(p, agent, maxParallel);
      q.global == p.global && q.globalMax == p.globalMax && q.number == p.number && q.removed == p.removed
  {
  }

  /** After a request the agent has a semaphore, unless it had none and the request was not positive. */
  lemma RaiseKnows(p: Permits, agent: AgentId, maxParallel: int)
    requires p.agents.Keys == p.maxima.Keys
    ensures agent in Raise(p, agent, maxParallel).agents <==> agent in p.agents || maxParallel >= 1
    ensures agent !in Raise(p, agent, maxParallel).agents ==> Raise(p, agent, maxParallel) == p
  {
  }

  /** A global permit taken and not given back. */
  function Taken(p: Permits): Permits {
    if p.global.Some? && p.global.value > 0 then p.(global := Some(p.global.value - 1)) else p
  }

  /** Whether a semaphore is the one that gets the permits given back. */
  predicate IsCurrent(p: Permits, semaphore: nat) {
    p.global.Some? && semaphore == p.number
  }

  function FreeIn(p: Permits, semaphore: nat): nat {
    if IsCurrent(p, semaphore) then p.global.value
    else if semaphore in p.removed then p.removed[semaphore]
    else 0
  }

  function TakenFrom(p: Permits, semaphore: nat): Permits
    requires FreeIn(p, semaphore) > 0
  {
    if IsCurrent(p, semaphore) then Taken(p) else p.(removed := p.removed[semaphore := p.removed[semaphore] - 1])
  }

  datatype ExecuteResult = NotConnected | GlobalTimeout | AgentTimeout | KeyError | Returned

  /** One executor between its waits; what others do meanwhile is the subject of the steps below. */
  class AgentExecutor {
    const agent: AgentId
    const manager: SlotManager
    var slotAcquired: bool

    constructor (agent: AgentId, manager: SlotManager)
      ensures this.agent == agent && this.manager == manager && !slotAcquired
    {
      this.agent, this.manager, slotAcquired := agent, manager, false;
    }

    /**
     An execution that returns gives back exactly the permits it took, also when a cleanup arrives
     while the command runs and has released the agent's slot already. A request that is not positive,
     for an agent without a semaphore, raises instead, and keeps the global permit. Without time to queue,
     an agent's slot can still be had, but no global permit.
     */
    method Execute(connected: bool, maxParallel: int, queueTimeout: int) returns (r: ExecuteResult)
      requires manager.agentSemaphores.Keys == manager.agentMaxParallel.Keys && !slotAcquired
      modifies this, manager
      ensures !slotAcquired
      ensures r.NotConnected? <==> !connected
      ensures r.GlobalTimeout? <==>
        && connected && old(manager.globalSemaphore).Some?
        && (old(manager.globalSemaphore).value == 0 || queueTimeout <= 0)
      ensures r.KeyError? <==>
        connected && !r.GlobalTimeout? && maxParallel <= 0 && agent !in old(manager.agentSemaphores)
      ensures r.AgentTimeout? <==>
        && connected && !r.GlobalTimeout? && !r.KeyError?
        && agent in Raise(old(manager.View()), agent, maxParallel).agents
        && Raise(old(manager.View()), agent, maxParallel).agents[agent] == 0
      ensures manager.View() ==
        if r.NotConnected? || r.GlobalTimeout? then old(manager.View())
        else if r.KeyError? then Taken(old(manager.View()))
        else Raise(old(manager.View()), agent, maxParallel)
    {
      hide Raise;
      RaiseKnows(manager.View(), agent, maxParallel);
      if !connected {
        return NotConnected;
      }
      RaiseIgnoresGlobal(manager.View(), agent, maxParallel);
      var globalAcquired := manager.TryGlobal(queueTimeout);
      if !globalAcquired {
        return GlobalTimeout;
      }
      manager.RaiseCapacity(agent, maxParallel);
      if agent !in manager.agentSemaphores {
        return KeyError;
      }
      var slot := manager.TryAgent(agent);
      if !slot {
        manager.ReleaseGlobalSlot();
        return AgentTimeout;
      }
      slotAcquired := true;
      ExecuteCommand(globalAcquired);
      r := Returned;
    }

    /** The command runs, perhaps with a cleanup arriving meanwhile; then everything is given back. */
    method ExecuteCommand(globalAcquired: bool)
      requires slotAcquired
      modifies this, manager
      ensures !slotAcquired
      ensures manager.View() ==
        var back := ReleaseAgent(old(manager.View()), agent); if globalAcquired then ReleaseGlobal(back) else back
    {
      if * {
        Cleanup();
      }
      if slotAcquired {
        manager.ReleaseAgentSlot(agent);
        slotAcquired := false;
      }
      if globalAcquired {
        manager.ReleaseGlobalSlot();
      }
    }

    /** Releases the agent's slot only if this executor still owns it. */
    method Cleanup()
      modifies this, manager
      ensures !slotAcquired
      ensures manager.View() ==
        if old(slotAcquired) then ReleaseAgent(old(manager.View()), agent) else old(manager.View())
    {
      if slotAcquired {
        manager.ReleaseAgentSlot(agent);
        slotAcquired := false;
      }
    }
  }

  // ---------- one step of the whole system ----------

  function PhaseOf(s: State, e: ExecutorId): Phase {
    if e in s.executors then s.executors[e] else Idle
  }

  predicate Enabled(s: State, ev: Event) {
    match ev
    case Configure(_) => true
    case Begin(e, _, _) => PhaseOf(s, e).Idle?
    case TakeGlobal(e) => PhaseOf(s, e).WaitGlobal? && FreeIn(s.permits, PhaseOf(s, e).semaphore) > 0
    case TimeOutGlobal(e) => PhaseOf(s, e).WaitGlobal?
    case TakeAgent(e) =>
      && PhaseOf(s, e).WaitAgent?
      && PhaseOf(s, e).agent in s.permits.agents && s.permits.agents[PhaseOf(s, e).agent] > 0
    case TimeOutAgent(e) => PhaseOf(s, e).WaitAgent?
    case CancelAgentWait(e) => PhaseOf(s, e).WaitAgent?
    case CleanUp(e) => true
    case Finish(e) => PhaseOf(s, e).Running?
  }

  function Move(s: State, e: ExecutorId, phase: Phase, permits: Permits): State {
    s.(executors := s.executors[e := phase], permits := permits)
  }

  function Requests(s: State, agent: AgentId): set<int> {
    if agent in s.requested then s.requested[agent] else {}
  }

  function Requested(s: State, agent: AgentId, maxParallel: int): map<AgentId, set<int>> {
    s.requested[agent := Requests(s, agent) + {maxParallel}]
  }

  /** The request finds no semaphore and creates none: asking for the slot raises. */
  predicate Raises(p: Permits, agent: AgentId, maxParallel: int) {
    maxParallel <= 0 && agent !in p.agents
  }

  /** Past the global slot an executor asks for its agent's, with the permits it has left. */
  function Enter(s: State, e: ExecutorId, agent: AgentId, maxParallel: int, p: Permits): State {
    Move(s, e, if Raises(p, agent, maxParallel) then Idle else WaitAgent(agent), Raise(p, agent, maxParallel))
      .(requested := Requested(s, agent, maxParallel))
  }

  function Step(s: State, ev: Event): State
    requires Enabled(s, ev)
  {
    var p := s.permits;
    match ev
    case Configure(max) => s.(permits := Configured(p, max))
    case Begin(e, agent, maxParallel) =>
      if p.global.None? then Enter(s, e, agent, maxParallel, p)
      else Move(s, e, WaitGlobal(agent, maxParallel, p.number), p)
    case TakeGlobal(e) =>
      var phase := PhaseOf(s, e);
      Enter(s, e, phase.agent, phase.maxParallel, TakenFrom(p, phase.semaphore))
    case TimeOutGlobal(e) => Move(s, e, Idle, p)
    case TakeAgent(e) =>
      var agent := PhaseOf(s, e).agent;
      Move(s, e, Running(agent, true), p.(agents := p.agents[agent := p.agents[agent] - 1]))
    case TimeOutAgent(e) => Move(s, e, Idle, ReleaseGlobal(p))
    case CancelAgentWait(e) => Move(s, e, Idle, p)
    case CleanUp(e) =>
      var phase := PhaseOf(s, e);
      if phase.Running? && phase.slot then Move(s, e, Running(phase.agent, false), ReleaseAgent(p, phase.agent)) else s
    case Finish(e) =>
      var phase := PhaseOf(s, e);
      Move(s, e, Idle, ReleaseGlobal(if phase.slot then ReleaseAgent(p, phase.agent) else p))
  }

  // ---------- conservation ----------

  ghost function AgentHolders(s: State, agent: AgentId): set<ExecutorId> {
    set e | e in s.executors && s.executors[e] == Running(agent, true)
  }

  predicate PastGlobal(phase: Phase) {
    phase.WaitAgent? || phase.Running?
  }

  ghost function GlobalHolders(s: State): set<ExecutorId> {
    set e | e in s.executors && PastGlobal(s.executors[e])
  }

  /** An agent has a semaphore exactly when somebody asked for a positive capacity. */
  ghost predicate AgentLaw(s: State) {
    && s.permits.agents.Keys == s.permits.maxima.Keys
    && (forall a {:trigger AgentLawFor(s, a)} :: a in s.permits.agents ==> AgentLawFor(s, a))
    && (forall a, m :: m in Requests(s, a) && m >= 1 ==> a in s.permits.agents)
  }

  ghost predicate AgentLawFor(s: State, a: AgentId) {
    && a in s.permits.agents && a in s.permits.maxima
    && s.permits.agents[a] + |AgentHolders(s, a)| == s.permits.maxima[a]
    && s.permits.maxima[a] >= 1 && s.permits.maxima[a] in Requests(s, a)
    && forall m :: m in Requests(s, a) ==> m <= s.permits.maxima[a]
  }

  /** Free and held permits together. */
  ghost function Available(s: State): nat {
    (if s.permits.global.Some? then s.permits.global.value else 0) + |GlobalHolders(s)|
  }

  /** Permits beyond the limit; negative when some are missing. */
  ghost function Surplus(s: State): int {
    if s.permits.global.Some? then Available(s) - s.permits.globalMax else 0
  }

  /** Under a limit there are never more permits than the limit says. */
  ghost predicate GlobalLaw(s: State) {
    Surplus(s) <= 0
  }

  /** There is a maximum exactly when there is a limit, and everybody waits on a semaphore that was made. */
  ghost predicate Known(s: State) {
    && (s.permits.global.Some? <==> s.permits.globalMax >= 1)
    && forall e :: e in s.executors && s.executors[e].WaitGlobal? ==> s.executors[e].semaphore <= s.permits.number
  }

  /** Executors past the global slot know a semaphore for their agent. */
  ghost predicate Placed(s: State) {
    forall e :: e in s.executors && PastGlobal(s.executors[e]) ==> s.executors[e].agent in s.permits.agents
  }

  ghost predicate Inv(s: State) {
    AgentLaw(s) && Placed(s) && Known(s)
  }

  function Holds(phase: Phase, agent: AgentId): nat {
    if phase == Running(agent, true) then 1 else 0
  }

  lemma AgentHoldersMoved(s: State, s': State, e: ExecutorId, phase: Phase, agent: AgentId)
    requires s'.executors == s.executors[e := phase]
    ensures AgentHolders(s', agent) == AgentHolders(s, agent) - {e} + if phase == Running(agent, true) then {e} else {}
    ensures e in AgentHolders(s, agent) <==> PhaseOf(s, e) == Running(agent, true)
  {
  }

  lemma AgentHoldersAfter(s: State, s': State, e: ExecutorId, phase: Phase, agent: AgentId)
    requires s'.executors == s.executors[e := phase]
    ensures |AgentHolders(s', agent)| == |AgentHolders(s, agent)| - Holds(PhaseOf(s, e), agent) + Holds(phase, agent)
  {
    hide AgentHolders;
    AgentHoldersMoved(s, s', e, phase, agent);
    MovedSize(AgentHolders(s, agent), e, phase == Running(agent, true));
  }

  lemma GlobalHoldersMoved(s: State, s': State, e: ExecutorId, phase: Phase)
    requires s'.executors == s.executors[e := phase]
    ensures GlobalHolders(s') == GlobalHolders(s) - {e} + if PastGlobal(phase) then {e} else {}
    ensures e in GlobalHolders(s) <==> PastGlobal(PhaseOf(s, e))
  {
  }

  lemma GlobalHoldersAfter(s: State, s': State, e: ExecutorId, phase: Phase)
    requires s'.executors == s.executors[e := phase]
    ensures |GlobalHolders(s')| ==
      |GlobalHolders(s)| - (if PastGlobal(PhaseOf(s, e)) then 1 else 0) + if PastGlobal(phase) then 1 else 0
  {
    hide GlobalHolders, PastGlobal, PhaseOf;
    GlobalHoldersMoved(s, s', e, phase);
    MovedSize(GlobalHolders(s), e, PastGlobal(phase));
  }

  /** Taking one member out and perhaps putting it back. */
  lemma MovedSize(S: set<ExecutorId>, e: ExecutorId, back: bool)
    ensures |S - {e} + if back then {e} else {}| == |S| - (if e in S then 1 else 0) + if back then 1 else 0
  {
  }

  /** Whether an event moves its executor, and where to. */
  function Target(s: State, ev: Event): Phase
    requires Enabled(s, ev) && !ev.Configure?
  {
    match ev
    case Begin(_, agent, m) =>
      if s.permits.global.Some? then WaitGlobal(agent, m, s.permits.number)
      else if Raises(s.permits, agent, m) then Idle
      else WaitAgent(agent)
    case TakeGlobal(e) =>
      if Raises(s.permits, PhaseOf(s, e).agent, PhaseOf(s, e).maxParallel) then Idle else WaitAgent(PhaseOf(s, e).agent)
    case TakeAgent(e) => Running(PhaseOf(s, e).agent, true)
    case CleanUp(e) =>
      if PhaseOf(s, e).Running? && PhaseOf(s, e).slot then Running(PhaseOf(s, e).agent, false) else PhaseOf(s, e)
    case _ => Idle
  }

  /** How one agent's holders change at a step. */
  lemma HoldersAtStep(s: State, ev: Event, a: AgentId)
    requires Enabled(s, ev)
    ensures |AgentHolders(Step(s, ev), a)| == |AgentHolders(s, a)| +
      if ev.Configure? then 0 else Holds(Target(s, ev), a) - Holds(PhaseOf(s, ev.e), a)
  {
    var s' := Step(s, ev);
    if ev.Configure? || (ev.CleanUp? && Target(s, ev) == PhaseOf(s, ev.e)) {
      assert AgentHolders(s', a) == AgentHolders(s, a);
    } else {
      hide AgentHolders;
      AgentHoldersAfter(s, s', ev.e, Target(s, ev), a);
    }
  }

  lemma GlobalHoldersAtStep(s: State, ev: Event)
    requires Enabled(s, ev)
    ensures |GlobalHolders(Step(s, ev))| == |GlobalHolders(s)| +
      if ev.Configure? then 0
      else (if PastGlobal(Target(s, ev)) then 1 else 0) - if PastGlobal(PhaseOf(s, ev.e)) then 1 else 0
  {
    var s' := Step(s, ev);
    if ev.Configure? || (ev.CleanUp? && Target(s, ev) == PhaseOf(s, ev.e)) {
      assert GlobalHolders(s') == GlobalHolders(s);
    } else {
      hide GlobalHolders;
      GlobalHoldersAfter(s, s', ev.e, Target(s, ev));
    }
  }

  lemma NobodyWithoutSemaphore(s: State, agent: AgentId)
    requires Placed(s)
    ensures agent !in s.permits.agents ==> |AgentHolders(s, agent)| == 0
  {
    if agent !in s.permits.agents {
      forall e
        ensures e !in AgentHolders(s, agent)
      {
        if e in s.executors {
          assert PastGlobal(Running(agent, true));
        }
      }
      NoMembers(AgentHolders(s, agent));
    }
  }

  lemma LawForOne(s: State, a: AgentId)
    requires AgentLaw(s)
    ensures s.permits.agents.Keys == s.permits.maxima.Keys
    ensures a in s.permits.agents ==> AgentLawFor(s, a)
    ensures a !in s.permits.agents ==> forall m :: m in Requests(s, a) ==> m <= 0
  {
    hide AgentLawFor;
  }

  /** A request raises the law's maximum and free permits together, or leaves both. */
  lemma RequestKeepsLaw(s: State, s': State, a: AgentId, maxParallel: int)
    requires a in s.permits.agents ==> AgentLawFor(s, a)
    requires a !in s.permits.agents ==> a !in s.permits.maxima && |AgentHolders(s, a)| == 0
    requires a !in s.permits.agents ==> forall m :: m in Requests(s, a) ==> m <= 0
    requires |AgentHolders(s', a)| == |AgentHolders(s, a)|
    requires s'.permits.agents == Raise(s.permits, a, maxParallel).agents
    requires s'.permits.maxima == Raise(s.permits, a, maxParallel).maxima
    requires s'.requested == Requested(s, a, maxParallel)
    ensures a in s'.permits.agents ==> AgentLawFor(s', a)
    ensures a !in s'.permits.agents ==> forall m :: m in Requests(s', a) ==> m <= 0
  {
    hide AgentHolders;
  }

  /** An agent whose permits, requests and holders stay the same keeps its law. */
  lemma UntouchedKeepsLaw(s: State, s': State, a: AgentId)
    requires AgentLawFor(s, a) && a in s'.permits.agents && a in s'.permits.maxima
    requires s'.permits.agents[a] == s.permits.agents[a] && s'.permits.maxima[a] == s.permits.maxima[a]
    requires Requests(s', a) == Requests(s, a) && |AgentHolders(s', a)| == |AgentHolders(s, a)|
    ensures AgentLawFor(s', a)
  {
    hide AgentHolders;
  }

  /** Another agent's capacity makes no difference. */
  lemma RaiseTouchesOne(p: Permits, agent: AgentId, maxParallel: int, a: AgentId)
    requires p.agents.Keys == p.maxima.Keys
    ensures var q := Raise(p, agent, maxParallel);
      && q.agents.Keys == q.maxima.Keys
      && (a != agent ==> (a in q.agents <==> a in p.agents))
      && (a != agent && a in p.agents ==> q.agents[a] == p.agents[a] && q.maxima[a] == p.maxima[a])
  {
  }

  /** The executor passes the global slot at this step, and asks for its agent's. */
  predicate Enters(s: State, ev: Event) {
    ev.TakeGlobal? || (ev.Begin? && s.permits.global.None?)
  }

  function AskedAgent(s: State, ev: Event): AgentId
    requires Enabled(s, ev) && Enters(s, ev)
  {
    if ev.Begin? then ev.agent else PhaseOf(s, ev.e).agent
  }

  function AskedCapacity(s: State, ev: Event): int
    requires Enabled(s, ev) && Enters(s, ev)
  {
    if ev.Begin? then ev.maxParallel else PhaseOf(s, ev.e).maxParallel
  }

  lemma RaiseReadsAgents(p: Permits, q: Permits, agent: AgentId, maxParallel: int)
    requires p.agents == q.agents && p.maxima == q.maxima
    ensures Raise(p, agent, maxParallel).agents == Raise(q, agent, maxParallel).agents
    ensures Raise(p, agent, maxParallel).maxima == Raise(q, agent, maxParallel).maxima
  {
  }

  /** What an entry does to the agents does not depend on where the global permit came from. */
  lemma EntryRaises(s: State, ev: Event)
    requires Enabled(s, ev) && Enters(s, ev)
    ensures var q := Raise(s.permits, AskedAgent(s, ev), AskedCapacity(s, ev));
      && Step(s, ev).permits.agents == q.agents && Step(s, ev).permits.maxima == q.maxima
      && Step(s, ev).requested == Requested(s, AskedAgent(s, ev), AskedCapacity(s, ev))
    ensures !PastGlobal(PhaseOf(s, ev.e)) && !Target(s, ev).Running?
  {
    var p := if ev.Begin? then s.permits else TakenFrom(s.permits, PhaseOf(s, ev.e).semaphore);
    RaiseReadsAgents(p, s.permits, AskedAgent(s, ev), AskedCapacity(s, ev));
    hide Raise;
  }

  lemma EntryKeepsOneAgent(s: State, ev: Event, a: AgentId)
    requires AgentLaw(s) && Placed(s) && Enabled(s, ev) && Enters(s, ev)
    ensures a in Step(s, ev).permits.agents ==> AgentLawFor(Step(s, ev), a)
    ensures a !in Step(s, ev).permits.agents ==> forall m :: m in Requests(Step(s, ev), a) ==> m <= 0
  {
    var s' := Step(s, ev);
    HoldersAtStep(s, ev, a);
    EntryRaises(s, ev);
    NobodyWithoutSemaphore(s, a);
    LawForOne(s, a);
    RaiseTouchesOne(s.permits, AskedAgent(s, ev), AskedCapacity(s, ev), a);
    hide AgentHolders, AgentLaw, AgentLawFor, Placed, Raise, Step;
    if a == AskedAgent(s, ev) {
      RequestKeepsLaw(s, s', a, AskedCapacity(s, ev));
    } else {
      assert Requests(s', a) == Requests(s, a);
      if a in s.permits.agents {
        UntouchedKeepsLaw(s, s', a);
      }
    }
  }

  lemma StepKeepsOneAgent(s: State, ev: Event, a: AgentId)
    requires AgentLaw(s) && Placed(s) && Enabled(s, ev)
    ensures a in Step(s, ev).permits.agents ==> AgentLawFor(Step(s, ev), a)
    ensures a !in Step(s, ev).permits.agents ==> forall m :: m in Requests(Step(s, ev), a) ==> m <= 0
  {
    if Enters(s, ev) {
      EntryKeepsOneAgent(s, ev, a);
    } else {
      HoldersAtStep(s, ev, a);
      LawForOne(s, a);
      hide AgentHolders, AgentLaw, Placed, Raise, Enter;
      assert Requests(Step(s, ev), a) == Requests(s, a);
    }
  }

  /**
   For each agent, free permits plus held slots stay the largest capacity ever requested; an agent
   has a semaphore exactly when a positive capacity was requested.
   */
  lemma StepKeepsAgentLaw(s: State, ev: Event)
    requires AgentLaw(s) && Placed(s) && Enabled(s, ev)
    ensures AgentLaw(Step(s, ev))
  {
    forall a
      ensures a in Step(s, ev).permits.agents ==> AgentLawFor(Step(s, ev), a)
      ensures a !in Step(s, ev).permits.agents ==> forall m :: m in Requests(Step(s, ev), a) ==> m <= 0
    {
      StepKeepsOneAgent(s, ev, a);
    }
    hide AgentLawFor, AgentHolders, Requests;
  }

  lemma StepKeepsPlaced(s: State, ev: Event)
    requires AgentLaw(s) && Placed(s) && Enabled(s, ev)
    ensures Placed(Step(s, ev))
  {
    hide AgentHolders, AgentLawFor, Requests;
  }

  lemma StepKeepsKnown(s: State, ev: Event)
    requires Known(s) && Enabled(s, ev)
    ensures Known(Step(s, ev))
    ensures Step(s, ev).permits.number >= s.permits.number
  {
    hide Raise;
    if Enters(s, ev) {
      EntryMovesGlobal(s, ev);
    }
  }

  /** What an entry does to the global permits: it takes one where it waited, or none without a limit. */
  lemma EntryMovesGlobal(s: State, ev: Event)
    requires Enabled(s, ev) && Enters(s, ev)
    ensures var p, q := s.permits, Step(s, ev).permits;
      && q.globalMax == p.globalMax && q.number == p.number
      && (ev.Begin? ==> q.global == p.global && q.removed == p.removed)
      && (ev.TakeGlobal? ==>
        var semaphore := PhaseOf(s, ev.e).semaphore;
        q.global == TakenFrom(p, semaphore).global && q.removed == TakenFrom(p, semaphore).removed)
  {
    var p := if ev.Begin? then s.permits else TakenFrom(s.permits, PhaseOf(s, ev.e).semaphore);
    RaiseIgnoresGlobal(p, AskedAgent(s, ev), AskedCapacity(s, ev));
    hide Raise;
  }

  // ---------- where global permits go ----------

  /** The executor waits on a semaphore that gets no more permits. */
  predicate OnRemoved(s: State, e: ExecutorId) {
    PhaseOf(s, e).WaitGlobal? && !IsCurrent(s.permits, PhaseOf(s, e).semaphore)
  }

  predicate EntryFails(s: State, e: ExecutorId) {
    PhaseOf(s, e).WaitGlobal? && Raises(s.permits, PhaseOf(s, e).agent, PhaseOf(s, e).maxParallel)
  }

  /** Under a limit, a permit is lost to a cancelled wait for the agent, or to a request that raises. */
  predicate Loses(s: State, ev: Event) {
    && s.permits.global.Some?
    && (ev.CancelAgentWait? || (ev.TakeGlobal? && EntryFails(s, ev.e) && !OnRemoved(s, ev.e)))
  }

  /** Under a limit, an executor gets in with a removed semaphore's permit, which it will give back to this one. */
  predicate Strays(s: State, ev: Event) {
    s.permits.global.Some? && ev.TakeGlobal? && OnRemoved(s, ev.e) && !EntryFails(s, ev.e)
  }

  /** Switching from unlimited to limited while executors are past the global slot. */
  ghost predicate LateLimit(s: State, ev: Event) {
    ev.Configure? && ev.max > 0 && s.permits.global.None? && GlobalHolders(s) != {}
  }

  /** What a step makes of a surplus. */
  ghost function SurplusAfter(s: State, ev: Event, surplus: int): int {
    if ev.Configure? && ev.max <= 0 then 0
    else if ev.Configure? && s.permits.global.None? then |GlobalHolders(s)|
    else if Loses(s, ev) then surplus - 1
    else if Strays(s, ev) then surplus + 1
    else surplus
  }

  lemma SurplusAtStep(s: State, ev: Event)
    requires Known(s) && Enabled(s, ev)
    ensures Surplus(Step(s, ev)) == SurplusAfter(s, ev, Surplus(s))
  {
    if Enters(s, ev) {
      SurplusAtEntry(s, ev);
    } else {
      GlobalHoldersAtStep(s, ev);
      hide GlobalHolders, Raise, Enter;
    }
  }

  lemma SurplusAtEntry(s: State, ev: Event)
    requires Known(s) && Enabled(s, ev) && Enters(s, ev)
    ensures Surplus(Step(s, ev)) == SurplusAfter(s, ev, Surplus(s))
  {
    GlobalHoldersAtStep(s, ev);
    EntryMovesGlobal(s, ev);
    hide GlobalHolders, Raise, Step, Known;
  }

  /** Under a limit that no step changes, free and held permits shrink, and grow, in one way each. */
  lemma PermitsShrinkIff(s: State, ev: Event)
    requires Known(s) && Enabled(s, ev) && s.permits.global.Some? && !ev.Configure?
    ensures Available(Step(s, ev)) == Available(s) - 1 <==> Loses(s, ev)
    ensures Available(Step(s, ev)) == Available(s) + 1 <==> Strays(s, ev)
    ensures Available(Step(s, ev)) == Available(s) <==> !Loses(s, ev) && !Strays(s, ev)
  {
    SurplusAtStep(s, ev);
    hide Available, Raise;
    if Enters(s, ev) {
      EntryMovesGlobal(s, ev);
    }
  }

  /**
   There are never more permits than the limit says, except when a limit is introduced while executors are
   already past the global slot, or one gets in with a removed semaphore's permit and none is missing.
   */
  lemma GlobalLawKeptIff(s: State, ev: Event)
    requires Known(s) && GlobalLaw(s) && Enabled(s, ev)
    ensures GlobalLaw(Step(s, ev)) <==> !LateLimit(s, ev) && !(Strays(s, ev) && Surplus(s) == 0)
  {
    SurplusAtStep(s, ev);
    hide Surplus, Step;
    if forall e :: e !in GlobalHolders(s) {
      NoMembers(GlobalHolders(s));
    }
  }

  lemma StepKeepsInv(s: State, ev: Event)
    requires Inv(s) && Enabled(s, ev)
    ensures Inv(Step(s, ev))
  {
    StepKeepsAgentLaw(s, ev);
    StepKeepsPlaced(s, ev);
    StepKeepsKnown(s, ev);
    hide AgentLaw, Known, Placed;
  }

  // ---------- whole runs ----------

  /** Events happen when they can. */
  ghost predicate Possible(s: State, evs: seq<Event>)
    decreases |evs|
  {
    evs == [] || (Enabled(s, evs[0]) && Possible(Step(s, evs[0]), evs[1..]))
  }

  ghost function Run(s: State, evs: seq<Event>): State
    requires Possible(s, evs)
    decreases |evs|
  {
    if evs == [] then s else Run(Step(s, evs[0]), evs[1..])
  }

  /** The agents' law holds over every run, and everybody waits where they can be found. */
  lemma {:induction false} RunKeepsInv(s: State, evs: seq<Event>)
    requires Inv(s) && Possible(s, evs)
    ensures Inv(Run(s, evs))
    decreases |evs|
  {
    if evs != [] {
      StepKeepsInv(s, evs[0]);
      RunKeepsInv(Step(s, evs[0]), evs[1..]);
    }
  }

  /** The surplus a run adds up to. */
  ghost function Tally(s: State, evs: seq<Event>, surplus: int): int
    requires Possible(s, evs)
    decreases |evs|
  {
    if evs == [] then surplus else Tally(Step(s, evs[0]), evs[1..], SurplusAfter(s, evs[0], surplus))
  }

  /** Over every run, what is missing under the limit or beyond it is what its steps have lost and let in. */
  lemma {:induction false} SurplusIsTally(s: State, evs: seq<Event>)
    requires Inv(s) && Possible(s, evs)
    ensures Surplus(Run(s, evs)) == Tally(s, evs, Surplus(s))
    decreases |evs|
  {
    if evs != [] {
      StepKeepsInv(s, evs[0]);
      SurplusAtStep(s, evs[0]);
      hide Surplus, Step, SurplusAfter;
      SurplusIsTally(Step(s, evs[0]), evs[1..]);
    }
  }

  lemma InitialInv()
    ensures Inv(INITIAL) && Surplus(INITIAL) == 0
  {
  }

  /** Once every executor has returned, all permits are back but for the run's tally. */
  lemma AllReturnedMeansAllBack(evs: seq<Event>, a: AgentId)
    requires Possible(INITIAL, evs)
    requires forall e :: e in Run(INITIAL, evs).executors ==> Run(INITIAL, evs).executors[e].Idle?
    ensures var p := Run(INITIAL, evs).permits;
      && (p.global.Some? ==> p.global.value == p.globalMax + Tally(INITIAL, evs, 0))
      && (a in p.agents ==> a in p.maxima && p.agents[a] == p.maxima[a])
  {
    var s := Run(INITIAL, evs);
    InitialInv();
    RunKeepsInv(INITIAL, evs);
    SurplusIsTally(INITIAL, evs);
    forall e
      ensures e !in GlobalHolders(s) && e !in AgentHolders(s, a)
    {
      if e in s.executors {
        assert s.executors[e].Idle?;
      }
    }
    NoMembers(GlobalHolders(s));
    NoMembers(AgentHolders(s, a));
    LawForOne(s, a);
  }

  // ---------- what the limit is, and where executors go ----------

  /** The largest limit asked for since the last one was removed. */
  ghost function LargestLimit(evs: seq<Event>, before: nat): nat
    decreases |evs|
  {
    if evs == [] then before
    else
      var now := if !evs[0].Configure? then before else if evs[0].max <= 0 then 0
        else if evs[0].max > before then evs[0].max else before;
      LargestLimit(evs[1..], now)
  }

  /** Over every run the limit is the largest one asked for since it was last removed: it never shrinks otherwise. */
  lemma {:induction false} LimitIsLargest(s: State, evs: seq<Event>)
    requires Inv(s) && Possible(s, evs)
    ensures Run(s, evs).permits.globalMax == LargestLimit(evs, s.permits.globalMax)
    ensures Run(s, evs).permits.global.Some? <==> LargestLimit(evs, s.permits.globalMax) >= 1
    decreases |evs|
  {
    if evs != [] {
      StepKeepsInv(s, evs[0]);
      LimitAtStep(s, evs[0]);
      hide Step, Inv;
      LimitIsLargest(Step(s, evs[0]), evs[1..]);
    }
  }

  lemma LimitAtStep(s: State, ev: Event)
    requires Known(s) && Enabled(s, ev)
    ensures Step(s, ev).permits.globalMax ==
      if !ev.Configure? then s.permits.globalMax
      else if ev.max <= 0 then 0
      else if ev.max > s.permits.globalMax then ev.max
      else s.permits.globalMax
  {
    hide Raise;
    if Enters(s, ev) {
      EntryMovesGlobal(s, ev);
    }
  }

  /** Each event's effect on the executors, spelled out. */
  lemma WhereExecutorsGo(s: State, ev: Event, e: ExecutorId)
    requires Enabled(s, ev)
    ensures ev.Configure? || e != ev.e ==> PhaseOf(Step(s, ev), e) == PhaseOf(s, e)
    ensures ev == Finish(e) || ev == TimeOutGlobal(e) || ev == TimeOutAgent(e) || ev == CancelAgentWait(e) ==>
      PhaseOf(Step(s, ev), e) == Idle
    ensures ev == TakeAgent(e) ==> PhaseOf(Step(s, ev), e) == Running(PhaseOf(s, e).agent, true)
    ensures ev == TakeGlobal(e) ==>
      PhaseOf(Step(s, ev), e) ==
        if PhaseOf(s, e).maxParallel <= 0 && PhaseOf(s, e).agent !in s.permits.agents then Idle
        else WaitAgent(PhaseOf(s, e).agent)
    ensures ev == CleanUp(e) && PhaseOf(s, e).Running? ==>
      PhaseOf(Step(s, ev), e) == Running(PhaseOf(s, e).agent, false)
    ensures ev == CleanUp(e) && !PhaseOf(s, e).Running? ==> Step(s, ev) == s
    ensures ev.Begin? && ev.e == e && s.permits.global.Some? ==>
      PhaseOf(Step(s, ev), e) == WaitGlobal(ev.agent, ev.maxParallel, s.permits.number)
    ensures ev.Begin? && ev.e == e && s.permits.global.None? ==>
      PhaseOf(Step(s, ev), e) ==
        if ev.maxParallel <= 0 && ev.agent !in s.permits.agents then Idle else WaitAgent(ev.agent)
  {
    hide Raise;
  }

  // ---------- a limit that is configured once ----------

  /** Everybody waits on the current semaphore. */
  ghost predicate NobodyOnRemoved(s: State) {
    forall e :: !OnRemoved(s, e)
  }

  /** How many steps of a run lose a permit. */
  ghost function Losses(s: State, evs: seq<Event>): nat
    requires Possible(s, evs)
    decreases |evs|
  {
    if evs == [] then 0 else (if Loses(s, evs[0]) then 1 else 0) + Losses(Step(s, evs[0]), evs[1..])
  }

  lemma StepKeepsCurrent(s: State, ev: Event)
    requires s.permits.global.Some? && NobodyOnRemoved(s) && Enabled(s, ev) && !ev.Configure?
    ensures Step(s, ev).permits.global.Some? && NobodyOnRemoved(Step(s, ev))
    ensures Step(s, ev).permits.globalMax == s.permits.globalMax
    ensures !Strays(s, ev)
  {
    hide Raise;
    if Enters(s, ev) {
      assert !OnRemoved(s, ev.e);
      EntryMovesGlobal(s, ev);
    }
    forall e
      ensures !OnRemoved(Step(s, ev), e)
    {
      assert !OnRemoved(s, e);
    }
  }

  /** While nobody configures the limit, it stays, the tally only counts losses, and it is never exceeded. */
  lemma {:induction false} SettledLimit(s: State, evs: seq<Event>)
    requires Inv(s) && s.permits.global.Some? && NobodyOnRemoved(s) && Possible(s, evs)
    requires forall ev :: ev in evs ==> !ev.Configure?
    ensures Run(s, evs).permits.global.Some? && Run(s, evs).permits.globalMax == s.permits.globalMax
    ensures NobodyOnRemoved(Run(s, evs)) && Inv(Run(s, evs))
    ensures Surplus(Run(s, evs)) == Surplus(s) - Losses(s, evs)
    decreases |evs|
  {
    if evs != [] {
      assert evs[0] in evs;
      StepKeepsInv(s, evs[0]);
      StepKeepsCurrent(s, evs[0]);
      SurplusAtStep(s, evs[0]);
      hide Surplus, Step, NobodyOnRemoved, Inv, Loses, Strays, OnRemoved;
      SettledLimit(Step(s, evs[0]), evs[1..]);
    }
  }

  // ---------- progress ----------

  predicate Waits(phase: Phase) { phase.WaitGlobal? || phase.WaitAgent? }

  /** The executor can acquire what it waits for, or finish. */
  predicate CanStep(s: State, e: ExecutorId) {
    Enabled(s, TakeGlobal(e)) || Enabled(s, TakeAgent(e)) || Enabled(s, Finish(e))
  }

  /** Somebody waits and nobody can do anything but give up. */
  ghost predicate Deadlocked(s: State) {
    && (exists e :: e in s.executors && Waits(s.executors[e]))
    && (forall e :: e in s.executors ==> !CanStep(s, e))
  }

  /** A waiter for an agent's slot can take it unless somebody else is running with one. */
  lemma AgentWaiterMoves(s: State, e: ExecutorId)
    requires Inv(s) && e in s.executors && s.executors[e].WaitAgent?
    ensures exists x :: x in s.executors && CanStep(s, x)
  {
    var a := s.executors[e].agent;
    assert AgentLawFor(s, a);
    if s.permits.agents[a] > 0 {
      assert CanStep(s, e);
    } else {
      if forall x :: x !in AgentHolders(s, a) {
        NoMembers(AgentHolders(s, a));
      }
      var x :| x in AgentHolders(s, a);
      assert CanStep(s, x);
    }
  }

  /**
   Because slots are taken in one order, the system is stuck in exactly one way: nobody is past the global
   slot, and every semaphore that somebody waits on is exhausted.
   */
  lemma DeadlockIff(s: State)
    requires Inv(s)
    ensures Deadlocked(s) <==>
      && (exists e :: e in s.executors && s.executors[e].WaitGlobal?)
      && GlobalHolders(s) == {}
      && forall e :: e in s.executors && s.executors[e].WaitGlobal? ==> FreeIn(s.permits, s.executors[e].semaphore) == 0
  {
    if Deadlocked(s) {
      forall e | e in s.executors
        ensures !PastGlobal(s.executors[e])
        ensures s.executors[e].WaitGlobal? ==> FreeIn(s.permits, s.executors[e].semaphore) == 0
      {
        assert !CanStep(s, e);
        if s.executors[e].WaitAgent? {
          AgentWaiterMoves(s, e);
        }
      }
      var e :| e in s.executors && Waits(s.executors[e]);
      assert !PastGlobal(s.executors[e]);
    } else if GlobalHolders(s) == {} {
      forall e | e in s.executors
        ensures s.executors[e].Idle? || s.executors[e].WaitGlobal?
      {
        assert e !in GlobalHolders(s);
      }
    }
  }

  /** Over every run: the current semaphore is exhausted when the tally has used up the limit. */
  lemma StuckIff(evs: seq<Event>)
    requires Possible(INITIAL, evs)
    ensures var s := Run(INITIAL, evs);
      Deadlocked(s) <==>
        && (exists e :: e in s.executors && s.executors[e].WaitGlobal?)
        && GlobalHolders(s) == {}
        && forall e :: e in s.executors && s.executors[e].WaitGlobal? ==>
          if OnRemoved(s, e) then FreeIn(s.permits, s.executors[e].semaphore) == 0
          else s.permits.globalMax + Tally(INITIAL, evs, 0) == 0
  {
    var s := Run(INITIAL, evs);
    InitialInv();
    RunKeepsInv(INITIAL, evs);
    SurplusIsTally(INITIAL, evs);
    DeadlockIff(s);
    hide Deadlocked, Inv, Run, Tally, Possible;
    if GlobalHolders(s) == {} {
      forall e | e in s.executors && s.executors[e].WaitGlobal? && !OnRemoved(s, e)
        ensures FreeIn(s.permits, s.executors[e].semaphore) == 0 <==>
          s.permits.globalMax + Tally(INITIAL, evs, 0) == 0
      {
      }
    }
  }

  /**
   A server that configures its limit once, before any executor exists, gets stuck exactly when executors
   wait for the global slot and its runs have lost the whole limit.
   */
  lemma StuckIffAllLost(max: int, evs: seq<Event>)
    requires max > 0 && Possible(Step(INITIAL, Configure(max)), evs) && forall ev :: ev in evs ==> !ev.Configure?
    ensures var s0 := Step(INITIAL, Configure(max));
      var s := Run(s0, evs);
      && Available(s) == max - Losses(s0, evs)
      && (Deadlocked(s) <==>
        (exists e :: e in s.executors && s.executors[e].WaitGlobal?) && Losses(s0, evs) == max)
  {
    var s0 := Step(INITIAL, Configure(max));
    InitialInv();
    StepKeepsInv(INITIAL, Configure(max));
    assert GlobalHolders(INITIAL) == {};
    SurplusAtStep(INITIAL, Configure(max));
    assert NobodyOnRemoved(s0);
    SettledLimit(s0, evs);
    DeadlockIff(Run(s0, evs));
    NobodyAtAll(Run(s0, evs));
    hide Deadlocked, Inv, Run, Possible, Losses, GlobalHolders, Step;
    forall e | e in Run(s0, evs).executors && Run(s0, evs).executors[e].WaitGlobal?
      ensures IsCurrent(Run(s0, evs).permits, Run(s0, evs).executors[e].semaphore)
    {
      assert !OnRemoved(Run(s0, evs), e);
    }
  }

  lemma NobodyAtAll(s: State)
    ensures |GlobalHolders(s)| == 0 <==> GlobalHolders(s) == {}
  {
  }

  // ---------- waiting on a removed semaphore ----------

  /** A removed semaphore stays removed, and only those who wait on it take its permits; nobody adds any. */
  lemma RemovedOnlyDrains(s: State, ev: Event, semaphore: nat)
    requires Enabled(s, ev) && semaphore <= s.permits.number && !IsCurrent(s.permits, semaphore)
    ensures !IsCurrent(Step(s, ev).permits, semaphore) && semaphore <= Step(s, ev).permits.number
    ensures FreeIn(Step(s, ev).permits, semaphore) == FreeIn(s.permits, semaphore) -
      if ev.TakeGlobal? && PhaseOf(s, ev.e).semaphore == semaphore then 1 else 0
  {
    hide Raise;
    if Enters(s, ev) {
      EntryMovesGlobal(s, ev);
    }
  }

  /** Whoever waits on an exhausted semaphore that was removed waits for nothing, whatever else happens. */
  lemma {:induction false} RemovedWaiterStarves(s: State, evs: seq<Event>, e: ExecutorId)
    requires Inv(s) && Possible(s, evs) && TimeOutGlobal(e) !in evs
    requires OnRemoved(s, e) && FreeIn(s.permits, PhaseOf(s, e).semaphore) == 0
    ensures PhaseOf(Run(s, evs), e) == PhaseOf(s, e) && !CanStep(Run(s, evs), e)
    decreases |evs|
  {
    if evs != [] {
      var semaphore := PhaseOf(s, e).semaphore;
      assert e in s.executors;
      assert evs[0] != TimeOutGlobal(e);
      RemovedOnlyDrains(s, evs[0], semaphore);
      StepKeepsInv(s, evs[0]);
      StaysWaiting(s, evs[0], e);
      hide Inv, Step, FreeIn, IsCurrent, CanStep;
      assert OnRemoved(Step(s, evs[0]), e);
      RemovedWaiterStarves(Step(s, evs[0]), evs[1..], e);
    }
  }

  lemma StaysWaiting(s: State, ev: Event, e: ExecutorId)
    requires Enabled(s, ev) && PhaseOf(s, e).WaitGlobal? && ev != TimeOutGlobal(e)
    requires FreeIn(s.permits, PhaseOf(s, e).semaphore) == 0
    ensures PhaseOf(Step(s, ev), e) == PhaseOf(s, e)
  {
    hide Raise;
  }

  // ---------- runs that go wrong ----------

  lemma After(s: State, ev: Event, rest: seq<Event>)
    requires Enabled(s, ev) && Possible(Step(s, ev), rest)
    ensures Possible(s, [ev] + rest) && Run(s, [ev] + rest) == Run(Step(s, ev), rest)
  {
    assert ([ev] + rest)[1..] == rest;
  }

  lemma Nowhere(s: State)
    ensures Possible(s, []) && Run(s, []) == s
  {
  }

  const CANCELLED_WAIT: seq<Event> :=
    [Configure(1)] + ([Begin(1, 5, 1)] + ([TakeGlobal(1)] + ([CancelAgentWait(1)] + ([Begin(2, 5, 1)] + []))))

  const ZERO_REQUEST: seq<Event> :=
    [Configure(1)] + ([Begin(1, 5, 0)] + ([TakeGlobal(1)] + ([Begin(2, 5, 1)] + [])))

  const REMOVED_LIMIT: seq<Event> :=
    [Configure(1)] + ([Begin(1, 5, 1)] + ([TakeGlobal(1)] + ([TakeAgent(1)] +
    ([Begin(2, 5, 1)] + ([Configure(0)] + ([Finish(1)] + []))))))

  const REPLACED_LIMIT: seq<Event> := [Configure(1)] + ([Begin(1, 5, 1)] + ([Configure(0)] + ([Configure(1)] + [])))

  /** One executor waits on an exhausted semaphore, and the other does nothing. */
  lemma OneIsStuck(s: State)
    requires s.executors == map[1 := Idle, 2 := WaitGlobal(5, 1, 1)] && FreeIn(s.permits, 1) == 0
    ensures Deadlocked(s)
  {
    assert 2 in s.executors && Waits(s.executors[2]);
  }

  /** The first executor gets in under a limit of one. */
  function FirstIn(maxParallel: int): (s: State)
    ensures s.permits.global == Some(0) && s.permits.number == 1 && s.permits.removed == map[]
    ensures s.executors == map[1 := if maxParallel >= 1 then WaitAgent(5) else Idle]
    ensures maxParallel >= 1 ==> 5 in s.permits.agents && s.permits.agents[5] == maxParallel
  {
    Step(Step(Step(INITIAL, Configure(1)), Begin(1, 5, maxParallel)), TakeGlobal(1))
  }

  lemma FirstGetsIn(maxParallel: int, rest: seq<Event>)
    requires Possible(FirstIn(maxParallel), rest)
    ensures var evs := [Configure(1)] + ([Begin(1, 5, maxParallel)] + ([TakeGlobal(1)] + rest));
      Possible(INITIAL, evs) && Run(INITIAL, evs) == Run(FirstIn(maxParallel), rest)
  {
    var s1 := Step(INITIAL, Configure(1));
    var s2 := Step(s1, Begin(1, 5, maxParallel));
    hide Possible, Run;
    After(s2, TakeGlobal(1), rest);
    After(s1, Begin(1, 5, maxParallel), [TakeGlobal(1)] + rest);
    After(INITIAL, Configure(1), [Begin(1, 5, maxParallel)] + ([TakeGlobal(1)] + rest));
  }

  /** Under a limit of one, one cancelled wait leaves everybody else stuck. */
  lemma CancellationCanDeadlock()
    ensures Possible(INITIAL, CANCELLED_WAIT) && Deadlocked(Run(INITIAL, CANCELLED_WAIT))
  {
    var s1 := Step(FirstIn(1), CancelAgentWait(1));
    var s2 := Step(s1, Begin(2, 5, 1));
    OneIsStuck(s2);
    hide Possible, Run, Deadlocked, FirstIn;
    Nowhere(s2);
    After(s1, Begin(2, 5, 1), []);
    After(FirstIn(1), CancelAgentWait(1), [Begin(2, 5, 1)] + []);
    FirstGetsIn(1, [CancelAgentWait(1)] + ([Begin(2, 5, 1)] + []));
  }

  /** So does one request for no capacity at all. */
  lemma ZeroRequestCanDeadlock()
    ensures Possible(INITIAL, ZERO_REQUEST) && Deadlocked(Run(INITIAL, ZERO_REQUEST))
  {
    hide FirstIn;
    var s1 := Step(FirstIn(0), Begin(2, 5, 1));
    OneIsStuck(s1);
    hide Possible, Run, Deadlocked;
    Nowhere(s1);
    After(FirstIn(0), Begin(2, 5, 1), []);
    FirstGetsIn(0, [Begin(2, 5, 1)] + []);
  }

  /** Removing the limit strands whoever waits for it, though no permit was lost and concurrency is now unlimited. */
  lemma RemovalCanDeadlock()
    ensures Possible(INITIAL, REMOVED_LIMIT) && Deadlocked(Run(INITIAL, REMOVED_LIMIT))
    ensures Run(INITIAL, REMOVED_LIMIT).permits.global.None?
  {
    hide FirstIn, Possible, Run, Deadlocked;
    var s1 := Step(FirstIn(1), TakeAgent(1));
    var s2 := Step(s1, Begin(2, 5, 1));
    var s3 := Step(s2, Configure(0));
    var s4 := Step(s3, Finish(1));
    assert s1.executors == map[1 := Running(5, true)];
    assert s4.permits.removed == map[1 := 0] && s4.permits.global == None;
    OneIsStuck(s4);
    Nowhere(s4);
    After(s3, Finish(1), []);
    After(s2, Configure(0), [Finish(1)] + []);
    After(s1, Begin(2, 5, 1), [Configure(0)] + ([Finish(1)] + []));
    After(FirstIn(1), TakeAgent(1), [Begin(2, 5, 1)] + ([Configure(0)] + ([Finish(1)] + [])));
    FirstGetsIn(1, [TakeAgent(1)] + ([Begin(2, 5, 1)] + ([Configure(0)] + ([Finish(1)] + []))));
  }

  /** A limit introduced while an executor waits for its agent lets more in than the limit says. */
  lemma LateLimitLetsTooManyIn()
    ensures Possible(INITIAL, [Begin(1, 5, 2)]) && LateLimit(Run(INITIAL, [Begin(1, 5, 2)]), Configure(1))
    ensures !GlobalLaw(Step(Run(INITIAL, [Begin(1, 5, 2)]), Configure(1)))
  {
    var s1 := Step(INITIAL, Begin(1, 5, 2));
    assert [Begin(1, 5, 2)] == [Begin(1, 5, 2)] + [];
    Nowhere(s1);
    After(INITIAL, Begin(1, 5, 2), []);
    assert 1 in GlobalHolders(s1);
    InitialInv();
    StepKeepsInv(INITIAL, Begin(1, 5, 2));
    assert s1.permits.global.None?;
    GlobalLawKeptIff(s1, Configure(1));
  }

  /** So does a limit that replaces another one while an executor waits for the old one. */
  lemma ReplacedLimitLetsTooManyIn()
    ensures Possible(INITIAL, REPLACED_LIMIT) && Enabled(Run(INITIAL, REPLACED_LIMIT), TakeGlobal(1))
    ensures !GlobalLaw(Step(Run(INITIAL, REPLACED_LIMIT), TakeGlobal(1)))
  {
    var s1 := Step(INITIAL, Configure(1));
    var s2 := Step(s1, Begin(1, 5, 1));
    var s3 := Step(s2, Configure(0));
    var s4 := Step(s3, Configure(1));
    Nowhere(s4);
    After(s3, Configure(1), []);
    After(s2, Configure(0), [Configure(1)] + []);
    After(s1, Begin(1, 5, 1), [Configure(0)] + ([Configure(1)] + []));
    After(INITIAL, Configure(1), [Begin(1, 5, 1)] + ([Configure(0)] + ([Configure(1)] + [])));
    var s5 := Step(s4, TakeGlobal(1));
    assert s4.permits.global == Some(1) && s4.permits.globalMax == 1 && s4.permits.removed == map[1 := 1];
    assert s5.permits.global == Some(1) && s5.executors[1] == WaitAgent(5);
    assert 1 in GlobalHolders(s5);
  }
}
