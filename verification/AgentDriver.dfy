/**
 * The object of ProjectAgent under any run: whatever the environment delivers, and in whatever order, it takes the
 * steps of the protocol, so that everything proved of the protocol holds of the object.
 */
module AgentDriver {
  import opened CommandTransport
  import opened ReplicaAgent
  import opened ProjectAgent
  import RL = RegisterLoop

  /** The moves of a register loop between its waits. */
  method DeliverToLoop(agent: ProjectAgent, e: RL.Event)
    requires agent.Valid() && RegisterEnabled(agent.State(), e)
    requires !e.Started? && !e.Stopped? && !e.TokenUpdated? && !e.Evicted? && !e.Fired?
    modifies agent
    ensures agent.Valid() && agent.State() == RegisterStep(old(agent.State()), e)
  {
    match e {
      case Called(l) => agent.PerformRegistration(l);
      case Posted(l) => agent.SendRegisterRequest(l);
      case Rejected(l) => agent.GoOn(l, RL.StandbyWait);
      case StandbyWoke(l) => agent.GoOn(l, RL.StandbyRegistering(0));
      case StandbyFailed(l) => agent.GoOn(l, RL.StandbyWait);
      case RecoveryDone(l) => agent.OnRecovered(l);
      case SyncDone(l) => agent.GoOn(l, RL.Connecting);
      case Connected(l) => agent.OnServicesStarted(l);
      case LateAck(l) => agent.OnLateAcknowledgement(l);
      case Threw(l) => agent.OnRegistrationFailed(l);
      case BackoffOver(l) => agent.GoOn(l, RL.Preparing);
    }
  }

  method DeliverRegister(agent: ProjectAgent, e: RL.Event)
    requires agent.Valid() && RegisterEnabled(agent.State(), e)
    modifies agent
    ensures agent.Valid() && agent.State() == RegisterStep(old(agent.State()), e)
  {
    if e.Started? {
      agent.ProcessStart();
    } else if e.Stopped? {
      agent.Stop();
    } else if e.TokenUpdated? {
      agent.UpdateToken();
    } else if e.Evicted? {
      agent.HandleEviction();
    } else if e.Fired? {
      agent.OnRestartDue(e.restart);
    } else {
      DeliverToLoop(agent, e);
    }
  }

  /** An event of the command transport; a call that is no longer executing waits for no shutdown. */
  method DeliverCommand(agent: ProjectAgent, e: Event)
    requires agent.Valid() && CommandEnabled(agent.State(), e)
    modifies agent`waiting, agent.transport
    ensures agent.Valid() && agent.State() == AgentStep(old(agent.State()), Command(e))
  {
    agent.transport.Handle(e);
    agent.waiting :=
      set f | f in agent.waiting && f in agent.transport.calls && agent.transport.calls[f].phase.Executing?;
  }

  method Deliver(agent: ProjectAgent, e: AgentEvent)
    requires agent.Valid() && AgentEnabled(agent.State(), e)
    modifies agent, agent.transport
    ensures agent.Valid() && agent.State() == AgentStep(old(agent.State()), e)
  {
    match e {
      case Register(r) => DeliverRegister(agent, r);
      case Admitted(l, p, order, stuck) => agent.OnAdmitted(l, p, order, stuck);
      case Command(t) => DeliverCommand(agent, t);
      case ShutdownCalled(caller, awaits, drainTimeoutMs) => agent.Shutdown(caller, awaits, drainTimeoutMs);
      case DrainPolled => agent.PollDrain();
      case DrainSettled => agent.AfterDrain();
      case ReleaseAnswered => agent.OnReleaseAnswered();
    }
  }

  /**
   * A whole life of the agent: after any schedule the object is where the protocol is, and in order: in-flight ids are
   * exact, no result is posted twice at a time, callers that wait for the shutdown are excluded from its drain, and the
   * slot has been released at most once.
   */
  method Live(agent: ProjectAgent, es: seq<AgentEvent>)
    requires agent.Valid() && FreshAgent(agent.State()) && AgentSchedule(agent.State(), es)
    modifies agent, agent.transport
    ensures agent.Valid() && agent.State() == AgentRun(old(agent.State()), es)
    ensures Orderly(agent.State()) && agent.releases <= 1
  {
    ghost var start := agent.State();
    FreshAgentInv(start);
    assert es[..0] == [];
    for i := 0 to |es|
      invariant agent.Valid() && AgentSchedule(agent.State(), es[i..])
      invariant AgentRun(agent.State(), es[i..]) == AgentRun(start, es)
      invariant AgentInv(agent.State())
    {
      assert es[i..][0] == es[i] && es[i..][1..] == es[i + 1..];
      AgentStepInv(agent.State(), es[i]);
      Deliver(agent, es[i]);
    }
    InvIsOrderly(agent.State());
  }
}
