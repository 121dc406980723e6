/**
 * src/project-agent.ts, second half: admission, eviction and graceful shutdown of one replica, running
 * together with its register loop and its command transport.
 */
module ReplicaAgent {
  import opened Options
  import opened CommandTransport
  import RF = ResultFate
  import RL = RegisterLoop

  datatype ShutdownPhase = NotStarted | Draining(deadline: nat) | Drained | TimedOut | Releasing | Stopped

  /** `waiting` are the calls whose handler awaits the shutdown promise; `releases` counts releaseSelf calls. */
  datatype Agent = Agent(
    transport: Transport,
    register: RL.Register,
    slotHeld: bool,
    shutdown: ShutdownPhase,
    excluded: set<CommandId>,
    waiting: set<FrameId>,
    hasRecovered: bool,
    servicesStarted: bool,
    recoveryPass: PassId,
    releases: nat)

  datatype AgentEvent =
    | Register(register: RL.Event)
    | Admitted(loop: RL.LoopId, pass: PassId, order: seq<CommandId>, stuck: set<CommandId>)
    | Command(command: Event)
    | ShutdownCalled(caller: Option<FrameId>, awaits: bool, drainTimeoutMs: nat)
    | DrainPolled
    | DrainSettled
    | ReleaseAnswered

  // ---------------------------------------------------------------- steps

  predicate ShuttingDown(s: Agent) {
    !s.shutdown.NotStarted?
  }

  function TokenUpdateStep(s: Agent): Agent {
    s.(register := if ShuttingDown(s) then s.register else RL.TokenUpdate(s.register))
  }

  function EvictionStep(s: Agent): Agent {
    s.(slotHeld := false, register := if ShuttingDown(s) then s.register else RL.Evict(s.register))
  }

  function ServicesStep(s: Agent, l: RL.LoopId): Agent {
    s.(servicesStarted := true, register := RL.ServicesUp(s.register, l))
  }

  function LateServicesStep(s: Agent, l: RL.LoopId): Agent {
    s.(servicesStarted := true, register := RL.LateServices(s.register, l))
  }

  /** What a register-loop event does beyond the register loop; a shutdown ignores token updates and evictions. */
  function RegisterStep(s: Agent, e: RL.Event): Agent
    requires RL.Enabled(s.register, e)
  {
    match e
    case TokenUpdated => TokenUpdateStep(s)
    case Evicted => EvictionStep(s)
    case RecoveryDone(_) => s.(hasRecovered := true, register := RL.Step(s.register, e))
    case Connected(l) => ServicesStep(s, l)
    case LateAck(l) => LateServicesStep(s, l)
    case _ => s.(register := RL.Step(s.register, e))
  }

  /** The minimum age of the files a registration submits. */
  function RecoveryAge(s: Agent): nat {
    if s.hasRecovered then PENDING_RESULT_MIN_RETRY_AGE_MS else 0
  }

  /** Admission accepted: record the slot at once, then start submitting the results of earlier sessions. */
  function AdmittedStep(s: Agent, l: RL.LoopId, p: PassId, order: seq<CommandId>, stuck: set<CommandId>): Agent
    requires RL.AwaitsAnswer(s.register, l) && forall c <- order :: c in s.transport.disk
  {
    var accepted := s.(register := RL.Accept(s.register, l));
    if !RL.TakesSlot(s.register, l) then accepted
    else accepted.(slotHeld := true, recoveryPass := p,
                   transport := LoadStep(s.transport, p, RecoveryAge(s), order, stuck))
  }

  /** The calls that still wait for the shutdown promise after a transport step. */
  function StillWaiting(waiting: set<FrameId>, t: Transport): set<FrameId> {
    set f | f in waiting && f in t.frames && t.frames[f].phase.Executing?
  }

  /** The in-flight commands the drain waits for. */
  function Blockers(s: Agent): set<CommandId> {
    s.transport.inFlight - s.excluded
  }

  /** The exclusion is recorded before the memoized promise is looked at, so that joining callers are excluded too. */
  function JoinStep(s: Agent, caller: Option<FrameId>, awaits: bool): Agent
    requires caller.Some? ==> caller.value in s.transport.frames
  {
    if caller.None? then s
    else s.(excluded := s.excluded + {s.transport.frames[caller.value].id},
            waiting := if awaits then s.waiting + {caller.value} else s.waiting)
  }

  function ShutdownStep(s: Agent, caller: Option<FrameId>, awaits: bool, drainTimeoutMs: nat): Agent
    requires caller.Some? ==> caller.value in s.transport.frames
  {
    var joined := JoinStep(s, caller, awaits);
    if ShuttingDown(s) then joined
    else DrainStep(joined, s.transport.now + drainTimeoutMs)
  }

  /** doShutdown up to its first wait. */
  function DrainStep(s: Agent, deadline: nat): Agent {
    s.(shutdown := Draining(deadline), transport := s.transport.(draining := true), register := RL.Cancel(s.register))
  }

  function PollStep(s: Agent): Agent
    requires s.shutdown.Draining?
  {
    if Blockers(s) == {} then s.(shutdown := Drained)
    else if s.transport.now >= s.shutdown.deadline then s.(shutdown := TimedOut)
    else s
  }

  function TeardownStep(s: Agent): Agent {
    s.(shutdown := Stopped, register := RL.Disconnect(s.register))
  }

  /** After the drain: release the slot only if it drained, and only if a slot is held. */
  function SettleStep(s: Agent): Agent {
    if s.shutdown.Drained? && s.slotHeld then s.(shutdown := Releasing, releases := s.releases + 1)
    else TeardownStep(s)
  }

  ghost predicate CommandEnabled(s: Agent, e: Event) {
    && Enabled(s.transport, e) && !e.StartDraining?
    && (e.Begin? ==> s.servicesStarted)
    && (e.LoadPass? && !e.foreign ==> e.minAgeMs >= PENDING_RESULT_MIN_RETRY_AGE_MS)
    && (e.Executed? || e.Threw? ==> e.frame !in s.waiting || s.shutdown.Stopped?)
  }

  ghost predicate RegisterEnabled(s: Agent, e: RL.Event) {
    && RL.Enabled(s.register, e)
    && !e.Accepted? && !e.Cancelled? && !e.Torn?
    && (e.Started? ==> !ShuttingDown(s))
    && (e.Evicted? ==> s.servicesStarted)
    && (e.RecoveryDone? ==> s.recoveryPass in s.transport.passes && s.transport.passes[s.recoveryPass] == [])
  }

  ghost predicate AgentEnabled(s: Agent, e: AgentEvent) {
    match e
    case Register(r) => RegisterEnabled(s, r)
    case Admitted(l, p, order, stuck) =>
      && RL.AwaitsAnswer(s.register, l)
      && p !in s.transport.passes && p !in s.transport.foreign && Listing(s.transport, order)
    case Command(t) => CommandEnabled(s, t)
    case ShutdownCalled(caller, _, _) =>
      && s.register.tally.starts > 0
      && (caller.Some? ==> caller.value in s.transport.frames && s.transport.frames[caller.value].phase.Executing?)
    case DrainPolled => s.shutdown.Draining?
    case DrainSettled => s.shutdown.Drained? || s.shutdown.TimedOut?
    case ReleaseAnswered => s.shutdown.Releasing?
  }

  ghost function AgentStep(s: Agent, e: AgentEvent): Agent
    requires AgentEnabled(s, e)
  {
    match e
    case Register(r) => RegisterStep(s, r)
    case Admitted(l, p, order, stuck) => AdmittedStep(s, l, p, order, stuck)
    case Command(t) =>
      s.(transport := Step(s.transport, t), waiting := StillWaiting(s.waiting, Step(s.transport, t)))
    case ShutdownCalled(caller, awaits, drainTimeoutMs) => ShutdownStep(s, caller, awaits, drainTimeoutMs)
    case DrainPolled => PollStep(s)
    case DrainSettled => SettleStep(s)
    case ReleaseAnswered => TeardownStep(s)
  }

  ghost predicate AgentSchedule(s: Agent, es: seq<AgentEvent>)
    decreases |es|
  {
    es == [] || (AgentEnabled(s, es[0]) && AgentSchedule(AgentStep(s, es[0]), es[1..]))
  }

  ghost function AgentRun(s: Agent, es: seq<AgentEvent>): Agent
    requires AgentSchedule(s, es)
    decreases |es|
  {
    if es == [] then s else AgentRun(AgentStep(s, es[0]), es[1..])
  }

  ghost predicate FreshAgent(s: Agent) {
    && Fresh(s.transport) && RL.IsFresh(s.register)
    && !s.slotHeld && s.shutdown.NotStarted? && s.excluded == {} && s.waiting == {}
    && !s.hasRecovered && !s.servicesStarted && s.releases == 0
  }

  // ------------------------------------------------------------------ law

  /** Draining and shutting down are the same; a settled drain leaves only excluded commands in flight. */
  ghost predicate ShutdownLaw(s: Agent) {
    && s.transport.draining == ShuttingDown(s)
    && (ShuttingDown(s) ==> RL.Shut(s.register))
    && (s.shutdown.Drained? || s.shutdown.Releasing? ==> Blockers(s) == {})
    && s.releases <= 1
    && (s.releases == 1 ==> (s.shutdown.Releasing? || s.shutdown.Stopped?) && Blockers(s) == {})
  }

  /** Every call waiting for the shutdown promise is excluded from the drain. */
  ghost predicate WaitersExcluded(s: Agent) {
    forall f :: f in s.waiting ==>
      f in s.transport.frames && s.transport.frames[f].phase.Executing? && s.transport.frames[f].id in s.excluded
  }

  predicate IsPastRecovery(phase: RL.Phase) {
    phase.Syncing? || phase.Connecting? || phase.Disconnected?
  }

  /** A register loop has submitted the results of earlier sessions and goes on. */
  ghost predicate PastRecovery(loops: map<RL.LoopId, RL.Phase>) {
    exists l :: l in loops && IsPastRecovery(loops[l])
  }

  /** Until the first recovery has run nothing is in flight, so that its pass may take every file. */
  ghost predicate RecoveryLaw(s: Agent) {
    && (s.servicesStarted ==> s.hasRecovered && s.register.tally.starts > 0)
    && (PastRecovery(s.register.loops) ==> s.hasRecovered)
    && (!s.hasRecovered ==> s.transport.frames == map[])
  }

  ghost predicate AgentInv(s: Agent) {
    && Inv(s.transport) && RL.LoopLaw(s.register) && RL.ChargeLaw(s.register)
    && ShutdownLaw(s) && WaitersExcluded(s) && RecoveryLaw(s)
  }

  lemma FreshAgentInv(s: Agent)
    requires FreshAgent(s)
    ensures AgentInv(s)
  {
    FreshInv(s.transport);
    RL.FreshLaws(s.register);
    NothingRunsYet(s);
  }

  lemma NothingRunsYet(s: Agent)
    requires Fresh(s.transport) && RL.LoopLaw(s.register) && RL.ChargeLaw(s.register) && s.register.loops == map[]
    requires s.shutdown.NotStarted? && s.waiting == {} && !s.servicesStarted && s.releases == 0
    requires Inv(s.transport)
    ensures AgentInv(s)
  {
  }

  // ------------------------------------------------------ one step at a time

  lemma {:induction false} CommandKeepsDraining(t: Transport, e: Event)
    requires Enabled(t, e) && !e.StartDraining?
    ensures Step(t, e).draining == t.draining
    ensures t.draining ==> Step(t, e).inFlight <= t.inFlight
    ensures t.frames == map[] && !e.Begin? ==> Step(t, e).frames == map[]
  {
  }

  lemma CommandStepInv(s: Agent, e: Event)
    requires AgentInv(s) && CommandEnabled(s, e)
    ensures AgentInv(AgentStep(s, Command(e)))
  {
    StepInv(s.transport, e);
    CommandKeepsDraining(s.transport, e);
    var t := AgentStep(s, Command(e));
    forall f | f in t.waiting ensures t.transport.frames[f].id in t.excluded {
      RF.KeepsCommand(s.transport, e, f);
    }
  }

  /** The first pass of a registration is always safe to run: see RecoveryLaw. */
  lemma RecoveryPassInv(s: Agent, p: PassId, order: seq<CommandId>, stuck: set<CommandId>)
    requires Inv(s.transport) && RecoveryLaw(s)
    requires p !in s.transport.passes && p !in s.transport.foreign && Listing(s.transport, order)
    ensures Inv(LoadStep(s.transport, p, RecoveryAge(s), order, stuck))
  {
    var e := LoadPass(p, RecoveryAge(s), order, stuck, false);
    assert Enabled(s.transport, e);
    StepInv(s.transport, e);
  }

  /** The laws that speak of the register loop, for one of its steps. */
  lemma {:induction false} RegisterLaws(s: Agent, e: RL.Event)
    requires AgentInv(s) && RL.Enabled(s.register, e)
    ensures RL.LoopLaw(RL.Step(s.register, e)) && RL.ChargeLaw(RL.Step(s.register, e))
    ensures ShuttingDown(s) && RL.AfterShutdown(e) ==> RL.Shut(RL.Step(s.register, e))
  {
    RL.StepLoopLaw(s.register, e);
    RL.StepChargeLaw(s.register, e);
    if ShuttingDown(s) && RL.AfterShutdown(e) { RL.ShutStays(s.register, e); }
  }

  /** Only RecoveryDone brings a loop past the recovery of pending results. */
  lemma {:induction false} PhasesPastRecovery(r: RL.Register, e: RL.Event)
    requires RL.Enabled(r, e) && PastRecovery(RL.Step(r, e).loops)
    ensures e.RecoveryDone? || PastRecovery(r.loops)
  {
    var l :| l in RL.Step(r, e).loops && IsPastRecovery(RL.Step(r, e).loops[l]);
    PhaseBefore(r, e, l);
  }

  lemma {:induction false} PhaseBefore(r: RL.Register, e: RL.Event, l: RL.LoopId)
    requires RL.Enabled(r, e) && l in RL.Step(r, e).loops && IsPastRecovery(RL.Step(r, e).loops[l])
    ensures e.RecoveryDone? || (l in r.loops && IsPastRecovery(r.loops[l]))
  {
  }

  /** Another state of the register loop under the same laws. */
  lemma RegisterChangeInv(s: Agent, r: RL.Register)
    requires AgentInv(s) && RL.LoopLaw(r) && RL.ChargeLaw(r) && (ShuttingDown(s) ==> RL.Shut(r))
    requires (PastRecovery(r.loops) ==> s.hasRecovered) && r.tally.starts >= s.register.tally.starts
    ensures AgentInv(s.(register := r))
  {
  }

  /** The slot is recorded and the first pass begins. */
  lemma FirstPassInv(s: Agent, p: PassId, order: seq<CommandId>, stuck: set<CommandId>)
    requires AgentInv(s) && p !in s.transport.passes && p !in s.transport.foreign && Listing(s.transport, order)
    ensures AgentInv(s.(slotHeld := true, recoveryPass := p,
                          transport := LoadStep(s.transport, p, RecoveryAge(s), order, stuck)))
  {
    RecoveryPassInv(s, p, order, stuck);
  }

  lemma {:induction false} RegisterEventInv(s: Agent, e: RL.Event)
    requires AgentInv(s) && RL.Enabled(s.register, e) && !e.RecoveryDone?
    requires ShuttingDown(s) ==> RL.AfterShutdown(e)
    ensures AgentInv(s.(register := RL.Step(s.register, e)))
  {
    RegisterLaws(s, e);
    if PastRecovery(RL.Step(s.register, e).loops) { PhasesPastRecovery(s.register, e); }
    StartsGrow(s.register, e);
    RegisterChangeInv(s, RL.Step(s.register, e));
  }

  lemma {:induction false} StartsGrow(r: RL.Register, e: RL.Event)
    requires RL.Enabled(r, e)
    ensures RL.Step(r, e).tally.starts >= r.tally.starts
  {
  }

  lemma AdmittedStepInv(s: Agent, l: RL.LoopId, p: PassId, order: seq<CommandId>, stuck: set<CommandId>)
    requires AgentInv(s) && AgentEnabled(s, Admitted(l, p, order, stuck))
    ensures AgentInv(AdmittedStep(s, l, p, order, stuck))
  {
    var accepted := s.(register := RL.Accept(s.register, l));
    RegisterEventInv(s, RL.Accepted(l));
    assert AgentInv(accepted);
    FirstPassInv(accepted, p, order, stuck);
  }

  lemma RecoveredInv(s: Agent, l: RL.LoopId)
    requires AgentInv(s) && RegisterEnabled(s, RL.RecoveryDone(l))
    ensures AgentInv(RegisterStep(s, RL.RecoveryDone(l)))
  {
    RegisterLaws(s, RL.RecoveryDone(l));
    RegisterChangeInv(s.(hasRecovered := true), RL.Step(s.register, RL.RecoveryDone(l)));
  }

  lemma ServicesInv(s: Agent, l: RL.LoopId)
    requires AgentInv(s) && RegisterEnabled(s, RL.Connected(l))
    ensures AgentInv(RegisterStep(s, RL.Connected(l)))
  {
    assert PastRecovery(s.register.loops);
    RegisterEventInv(s, RL.Connected(l));
  }

  lemma LateServicesInv(s: Agent, l: RL.LoopId)
    requires AgentInv(s) && RegisterEnabled(s, RL.LateAck(l))
    ensures AgentInv(RegisterStep(s, RL.LateAck(l)))
  {
    assert PastRecovery(s.register.loops);
    RegisterEventInv(s, RL.LateAck(l));
  }

  lemma {:induction false} RegisterStepInv(s: Agent, e: RL.Event)
    requires AgentInv(s) && RegisterEnabled(s, e)
    ensures AgentInv(RegisterStep(s, e))
  {
    match e
    case RecoveryDone(l) => RecoveredInv(s, l);
    case Connected(l) => ServicesInv(s, l);
    case LateAck(l) => LateServicesInv(s, l);
    case TokenUpdated => if !ShuttingDown(s) { RegisterEventInv(s, e); }
    case Evicted => if !ShuttingDown(s) { RegisterEventInv(s, e); }
    case _ => RegisterEventInv(s, e);
  }

  /** Joining only excludes the caller, and has it wait. */
  lemma JoinFrame(s: Agent, caller: Option<FrameId>, awaits: bool)
    requires caller.Some? ==> caller.value in s.transport.frames
    ensures var t := JoinStep(s, caller, awaits);
            t == s.(excluded := t.excluded, waiting := t.waiting) && s.excluded <= t.excluded
  {
  }

  lemma JoinInv(s: Agent, caller: Option<FrameId>, awaits: bool)
    requires AgentInv(s) && AgentEnabled(s, ShutdownCalled(caller, awaits, 0))
    ensures AgentInv(JoinStep(s, caller, awaits))
  {
  }

  lemma JoinOngoingInv(s: Agent, caller: Option<FrameId>, awaits: bool, drainTimeoutMs: nat)
    requires AgentInv(s) && ShuttingDown(s) && AgentEnabled(s, ShutdownCalled(caller, awaits, drainTimeoutMs))
    ensures AgentInv(ShutdownStep(s, caller, awaits, drainTimeoutMs))
  {
    JoinFrame(s, caller, awaits);
    JoinInv(s, caller, awaits);
  }

  lemma DrainStepInv(s: Agent, deadline: nat)
    requires AgentInv(s) && !ShuttingDown(s) && s.register.tally.starts > 0
    ensures AgentInv(DrainStep(s, deadline))
  {
    StepInv(s.transport, StartDraining);
    RegisterLaws(s, RL.Cancelled);
    RL.CancelLaw(s.register);
  }

  lemma BeginShutdownInv(s: Agent, caller: Option<FrameId>, awaits: bool, drainTimeoutMs: nat)
    requires AgentInv(s) && !ShuttingDown(s) && AgentEnabled(s, ShutdownCalled(caller, awaits, drainTimeoutMs))
    ensures AgentInv(ShutdownStep(s, caller, awaits, drainTimeoutMs))
  {
    JoinFrame(s, caller, awaits);
    JoinInv(s, caller, awaits);
    DrainStepInv(JoinStep(s, caller, awaits), s.transport.now + drainTimeoutMs);
  }

  lemma ShutdownStepInv(s: Agent, caller: Option<FrameId>, awaits: bool, drainTimeoutMs: nat)
    requires AgentInv(s) && AgentEnabled(s, ShutdownCalled(caller, awaits, drainTimeoutMs))
    ensures AgentInv(ShutdownStep(s, caller, awaits, drainTimeoutMs))
  {
    if ShuttingDown(s) {
      JoinOngoingInv(s, caller, awaits, drainTimeoutMs);
    } else {
      BeginShutdownInv(s, caller, awaits, drainTimeoutMs);
    }
  }

  lemma TeardownInv(s: Agent)
    requires AgentInv(s) && ShuttingDown(s) && (s.releases == 1 ==> s.shutdown.Releasing?)
    ensures AgentInv(TeardownStep(s))
  {
    RegisterLaws(s, RL.Torn);
    if PastRecovery(RL.Disconnect(s.register).loops) { PhasesPastRecovery(s.register, RL.Torn); }
  }

  lemma {:induction false} AgentStepInv(s: Agent, e: AgentEvent)
    requires AgentInv(s) && AgentEnabled(s, e)
    ensures AgentInv(AgentStep(s, e))
  {
    match e
    case Register(r) => RegisterStepInv(s, r);
    case Admitted(l, p, order, stuck) => AdmittedStepInv(s, l, p, order, stuck);
    case Command(t) => CommandStepInv(s, t);
    case ShutdownCalled(caller, awaits, drainTimeoutMs) => ShutdownStepInv(s, caller, awaits, drainTimeoutMs);
    case DrainPolled =>
    case DrainSettled => if !(s.shutdown.Drained? && s.slotHeld) { TeardownInv(s); }
    case ReleaseAnswered => TeardownInv(s);
  }

  lemma {:induction false} AgentRunInv(s: Agent, es: seq<AgentEvent>)
    requires AgentInv(s) && AgentSchedule(s, es)
    ensures AgentInv(AgentRun(s, es))
    decreases |es|
  {
    if es != [] {
      AgentStepInv(s, es[0]);
      AgentRunInv(AgentStep(s, es[0]), es[1..]);
    }
  }

  // ------------------------------------------------------------- theorems

  lemma NoBlockers(s: Agent)
    requires Blockers(s) == {}
    ensures s.transport.inFlight <= s.excluded
  {
    forall c | c in s.transport.inFlight ensures c in s.excluded {
      assert c !in Blockers(s);
    }
  }

  lemma {:induction false} ReleaseStep(s: Agent, e: AgentEvent)
    requires AgentInv(s) && AgentEnabled(s, e) && AgentStep(s, e).releases != s.releases
    ensures s.releases == 0 && AgentStep(s, e).releases == 1 && AgentStep(s, e).shutdown.Releasing?
    ensures s.slotHeld && s.transport.draining && s.transport.inFlight <= s.excluded
  {
    NoBlockers(s);
  }

  /**
   * In every run the slot is released at most once, by a drained agent that holds it, with nothing but excluded
   * commands in flight.
   */
  lemma {:induction false} ReleaseIsSafe(s: Agent, es: seq<AgentEvent>, e: AgentEvent)
    requires FreshAgent(s) && AgentSchedule(s, es) && AgentEnabled(AgentRun(s, es), e)
    requires AgentStep(AgentRun(s, es), e).releases != AgentRun(s, es).releases
    ensures AgentRun(s, es).releases == 0 && AgentStep(AgentRun(s, es), e).releases == 1
    ensures AgentRun(s, es).slotHeld && AgentRun(s, es).transport.inFlight <= AgentRun(s, es).excluded
  {
    FreshAgentInv(s);
    AgentRunInv(s, es);
    ReleaseStep(AgentRun(s, es), e);
  }

  lemma {:induction false} ShrinkingInFlight(s: Agent, e: AgentEvent)
    requires ShuttingDown(s) && s.transport.draining && AgentEnabled(s, e)
    ensures var t := AgentStep(s, e);
            ShuttingDown(t) && t.transport.draining && t.transport.inFlight <= s.transport.inFlight
              && s.excluded <= t.excluded
  {
    if e.Command? { CommandKeepsDraining(s.transport, e.command); }
  }

  /** Once shutdown has begun: no command enters, no exclusion is lost and no register loop is started, forever. */
  lemma {:induction false} ShutdownIsForever(s: Agent, es: seq<AgentEvent>)
    requires AgentInv(s) && ShuttingDown(s) && AgentSchedule(s, es)
    ensures var t := AgentRun(s, es);
            && ShuttingDown(t) && t.transport.draining && t.transport.inFlight <= s.transport.inFlight
            && s.excluded <= t.excluded && t.register.loopCount == s.register.loopCount && t.register.cancelled
    decreases |es|
  {
    if es != [] {
      ShrinkingInFlight(s, es[0]);
      NoLoopStarted(s, es[0]);
      AgentStepInv(s, es[0]);
      ShutdownIsForever(AgentStep(s, es[0]), es[1..]);
    }
  }

  lemma {:induction false} NoLoopStarted(s: Agent, e: AgentEvent)
    requires AgentInv(s) && ShuttingDown(s) && AgentEnabled(s, e)
    ensures AgentStep(s, e).register.loopCount == s.register.loopCount
  {
    if e.Register? && RL.AfterShutdown(e.register) { RL.ShutStays(s.register, e.register); }
  }

  /** After a release, no command outside the ones excluded at that moment is ever in flight again. */
  lemma {:induction false} NothingRunsAfterRelease(s: Agent, es: seq<AgentEvent>)
    requires AgentInv(s) && s.shutdown.Releasing? && AgentSchedule(s, es)
    ensures AgentRun(s, es).transport.inFlight <= s.transport.inFlight <= s.excluded
    ensures AgentRun(s, es).releases == s.releases
  {
    ShutdownIsForever(s, es);
    NoBlockers(s);
    NoSecondRelease(s, es);
  }

  lemma {:induction false} NoReleaseStep(s: Agent, e: AgentEvent)
    requires AgentEnabled(s, e) && (s.shutdown.Releasing? || s.shutdown.Stopped?)
    ensures AgentStep(s, e).releases == s.releases
    ensures AgentStep(s, e).shutdown.Releasing? || AgentStep(s, e).shutdown.Stopped?
  {
  }

  lemma {:induction false} NoSecondRelease(s: Agent, es: seq<AgentEvent>)
    requires (s.shutdown.Releasing? || s.shutdown.Stopped?) && AgentSchedule(s, es)
    ensures AgentRun(s, es).releases == s.releases
    decreases |es|
  {
    if es != [] {
      NoReleaseStep(s, es[0]);
      NoSecondRelease(AgentStep(s, es[0]), es[1..]);
    }
  }

  // -------------------------------------------- the drain never waits on itself

  /** The calls whose command the drain waits for. */
  ghost predicate Blocks(s: Agent, f: FrameId) {
    f in s.transport.frames && s.transport.frames[f].id !in s.excluded
  }

  /** The answers from outside that end this call: an execution ends with its result, which is then accepted. */
  function EndsOf(frame: Frame, f: FrameId, result: CommandResult): seq<AgentEvent> {
    match frame.phase
    case Fetching => [Command(FetchAnswered(f, ClaimedElsewhere, true))]
    case Executing => [Command(Executed(f, result, true)), Command(SubmitAnswered(f, Accepted, true))]
    case Submitting(_, _, _) => [Command(SubmitAnswered(f, Accepted, true))]
  }

  /** The call is over, and nothing else about the shutdown has changed. */
  ghost predicate Ended(s: Agent, t: Agent, id: CommandId) {
    t.transport.inFlight == s.transport.inFlight - {id} && t.excluded == s.excluded && t.shutdown == s.shutdown
  }

  lemma FetchEnds(s: Agent, f: FrameId)
    requires AgentInv(s) && f in s.transport.frames && s.transport.frames[f].phase.Fetching?
    ensures var e := Command(FetchAnswered(f, ClaimedElsewhere, true));
            AgentEnabled(s, e) && Ended(s, AgentStep(s, e), s.transport.frames[f].id)
  {
    FinishRemoves(s.transport, f, s.transport.frames[f].id, false);
  }

  lemma SubmitEnds(s: Agent, f: FrameId)
    requires AgentInv(s) && f in s.transport.frames && s.transport.frames[f].phase.Submitting?
    ensures var e := Command(SubmitAnswered(f, Accepted, true));
            AgentEnabled(s, e) && Ended(s, AgentStep(s, e), s.transport.frames[f].id)
  {
    FinishRemoves(s.transport, f, s.transport.frames[f].id, true);
  }

  /** An execution that is not waiting for the shutdown goes on to submit its result. */
  lemma ExecutionGoesOn(s: Agent, f: FrameId, result: CommandResult)
    requires AgentInv(s) && f in s.transport.frames && s.transport.frames[f].phase.Executing? && f !in s.waiting
    ensures var e := Command(Executed(f, result, true));
            && AgentEnabled(s, e)
            && f in AgentStep(s, e).transport.frames
            && AgentStep(s, e).transport.frames[f].id == s.transport.frames[f].id
            && AgentStep(s, e).transport.frames[f].phase.Submitting?
            && AgentStep(s, e).transport.inFlight == s.transport.inFlight
            && AgentStep(s, e).excluded == s.excluded && AgentStep(s, e).shutdown == s.shutdown
  {
  }

  /** No call the drain waits for is waiting for the shutdown: answers from outside alone end it. */
  lemma BlockerCanEnd(s: Agent, f: FrameId, result: CommandResult)
    requires AgentInv(s) && Blocks(s, f)
    ensures f !in s.waiting
    ensures var es := EndsOf(s.transport.frames[f], f, result);
            AgentSchedule(s, es) && Ended(s, AgentRun(s, es), s.transport.frames[f].id)
  {
    match s.transport.frames[f].phase
    case Fetching =>
      FetchEnds(s, f);
      OneEvent(s, Command(FetchAnswered(f, ClaimedElsewhere, true)));
    case Executing => ExecutionEnds(s, f, result);
    case Submitting(_, _, _) =>
      SubmitEnds(s, f);
      OneEvent(s, Command(SubmitAnswered(f, Accepted, true)));
  }

  lemma ExecutionEnds(s: Agent, f: FrameId, result: CommandResult)
    requires AgentInv(s) && Blocks(s, f) && s.transport.frames[f].phase.Executing?
    ensures var es := [Command(Executed(f, result, true)), Command(SubmitAnswered(f, Accepted, true))];
            AgentSchedule(s, es) && Ended(s, AgentRun(s, es), s.transport.frames[f].id)
  {
    var e1, e2 := Command(Executed(f, result, true)), Command(SubmitAnswered(f, Accepted, true));
    ExecutionGoesOn(s, f, result);
    AgentStepInv(s, e1);
    SubmitEnds(AgentStep(s, e1), f);
    OneEvent(AgentStep(s, e1), e2);
    assert [e1, e2][1..] == [e2];
  }

  lemma OneEvent(s: Agent, e: AgentEvent)
    requires AgentEnabled(s, e)
    ensures AgentSchedule(s, [e]) && AgentRun(s, [e]) == AgentStep(s, e)
  {
    assert [e][1..] == [];
    assert AgentSchedule(AgentStep(s, e), []);
  }

  lemma {:induction false} AgentRunConcat(s: Agent, a: seq<AgentEvent>, b: seq<AgentEvent>)
    requires AgentSchedule(s, a) && AgentSchedule(AgentRun(s, a), b)
    ensures AgentSchedule(s, a + b) && AgentRun(s, a + b) == AgentRun(AgentRun(s, a), b)
    decreases |a|
  {
    if a == [] {
      assert a + b == b;
    } else {
      assert (a + b)[1..] == a[1..] + b;
      AgentRunConcat(AgentStep(s, a[0]), a[1..], b);
    }
  }

  ghost predicate OnlyOutsideAnswers(es: seq<AgentEvent>) {
    forall e <- es :: e.Command? && (e.command.FetchAnswered? || e.command.Executed? || e.command.SubmitAnswered?)
  }

  /**
   * From every reachable state the drain can finish without the shutdown making any progress: executions that end and
   * answers from outside, for the very calls it waits for, are enough. So no command waits for the drain that waits
   * for it.
   */
  lemma {:induction false} DrainCanFinish(s: Agent) returns (es: seq<AgentEvent>)
    requires AgentInv(s)
    ensures OnlyOutsideAnswers(es) && AgentSchedule(s, es)
    ensures Blockers(AgentRun(s, es)) == {} && AgentRun(s, es).shutdown == s.shutdown
    decreases Blockers(s)
  {
    if Blockers(s) == {} {
      es := [];
    } else {
      var f := SomeBlocker(s);
      var first := EndsOf(s.transport.frames[f], f, CommandResult(true, ""));
      BlockerCanEnd(s, f, CommandResult(true, ""));
      var t := AgentRun(s, first);
      AgentRunInv(s, first);
      assert Blockers(t) == Blockers(s) - {s.transport.frames[f].id};
      var rest := DrainCanFinish(t);
      AgentRunConcat(s, first, rest);
      es := first + rest;
    }
  }

  lemma SomeBlocker(s: Agent) returns (f: FrameId)
    requires AgentInv(s) && Blockers(s) != {}
    ensures Blocks(s, f) && s.transport.frames[f].id in Blockers(s)
  {
    var c :| c in Blockers(s);
    assert Running(s.transport, c);
    f :| f in s.transport.frames && s.transport.frames[f].id == c;
  }

  // ------------------------------------------- what the transport sees of a run

  /** The transport events inside one agent event. */
  ghost function Inside(s: Agent, e: AgentEvent): seq<Event>
    requires AgentEnabled(s, e)
  {
    match e
    case Command(t) => [t]
    case Admitted(l, p, order, stuck) =>
      if RL.TakesSlot(s.register, l) then [LoadPass(p, RecoveryAge(s), order, stuck, false)] else []
    case ShutdownCalled(_, _, _) => if ShuttingDown(s) then [] else [StartDraining]
    case _ => []
  }

  ghost function Projected(s: Agent, es: seq<AgentEvent>): seq<Event>
    requires AgentSchedule(s, es)
    decreases |es|
  {
    if es == [] then [] else Inside(s, es[0]) + Projected(AgentStep(s, es[0]), es[1..])
  }

  lemma {:induction false} InsideIsTheStep(s: Agent, e: AgentEvent)
    requires AgentInv(s) && AgentEnabled(s, e)
    ensures var ts := Inside(s, e);
            && (ts == [] ==> AgentStep(s, e).transport == s.transport)
            && (ts != [] ==>
                 |ts| == 1 && Enabled(s.transport, ts[0]) && AgentStep(s, e).transport == Step(s.transport, ts[0]))
  {
  }

  /** A run of the agent is, for its transport, a run of the transport: every transport result holds of agents. */
  lemma {:induction false} AgentRunsAreTransportRuns(s: Agent, es: seq<AgentEvent>)
    requires AgentInv(s) && AgentSchedule(s, es)
    ensures Schedule(s.transport, Projected(s, es))
    ensures Run(s.transport, Projected(s, es)) == AgentRun(s, es).transport
    decreases |es|
  {
    if es != [] {
      var t := AgentStep(s, es[0]);
      AgentStepInv(s, es[0]);
      AgentRunsAreTransportRuns(t, es[1..]);
      InsideIsTheStep(s, es[0]);
      AtMostOneBefore(s.transport, t.transport, Inside(s, es[0]), Projected(t, es[1..]));
    }
  }

  /** A transport event, or none, before a run of the transport. */
  lemma AtMostOneBefore(s: Transport, t: Transport, head: seq<Event>, tail: seq<Event>)
    requires |head| <= 1 && (head == [] ==> t == s)
    requires head != [] ==> Enabled(s, head[0]) && t == Step(s, head[0])
    requires Schedule(t, tail)
    ensures Schedule(s, head + tail) && Run(s, head + tail) == Run(t, tail)
  {
    if head == [] {
      assert head + tail == tail;
    } else {
      assert (head + tail)[0] == head[0] && (head + tail)[1..] == tail;
    }
  }

  ghost predicate Orderly(s: Agent) {
    && Exact(s.transport) && Fenced(s.transport) && NoParallelPost(s.transport) && WaitersExcluded(s)
    && (!s.hasRecovered ==> s.transport.inFlight == {})
  }

  lemma InvIsOrderly(s: Agent)
    requires AgentInv(s)
    ensures Orderly(s)
  {
    if !s.hasRecovered { NothingInFlight(s.transport); }
  }

  lemma NothingInFlight(t: Transport)
    requires Exact(t) && t.frames == map[]
    ensures t.inFlight == {}
  {
    assert forall c :: c in t.inFlight ==> Running(t, c);
  }

  /**
   * In every run of a freshly started agent: the in-flight set is exact, every generation held is the one its
   * call was assigned, no pass posts a result whose own submit is outstanding, and every waiter is excluded.
   */
  lemma {:induction false} EveryRun(s: Agent, es: seq<AgentEvent>)
    requires FreshAgent(s) && AgentSchedule(s, es)
    ensures Orderly(AgentRun(s, es))
  {
    FreshAgentInv(s);
    OrderlyRun(s, es);
  }

  lemma {:induction false} OrderlyRun(s: Agent, es: seq<AgentEvent>)
    requires AgentInv(s) && AgentSchedule(s, es)
    ensures Orderly(AgentRun(s, es))
  {
    AgentRunInv(s, es);
    InvIsOrderly(AgentRun(s, es));
  }

  ghost predicate AgentDispatched(es: seq<AgentEvent>) {
    forall e <- es :: e.Command? && e.command.Threw? ==> !e.command.conflict
  }

  lemma {:induction false} DispatchedInside(s: Agent, es: seq<AgentEvent>)
    requires AgentSchedule(s, es) && AgentDispatched(es)
    ensures RF.Dispatched(Projected(s, es))
    decreases |es|
  {
    if es != [] {
      assert es[0] in es && forall e :: e in es[1..] ==> e in es;
      DispatchedInside(AgentStep(s, es[0]), es[1..]);
    }
  }

  /** What becomes of every stored result, for the whole agent: it is on disk, or the run accounts for it. */
  lemma {:induction false} AgentLosesNothing(s: Agent, es: seq<AgentEvent>, c: CommandId)
    requires AgentInv(s) && AgentSchedule(s, es) && AgentDispatched(es) && c in s.transport.disk
    ensures Schedule(s.transport, Projected(s, es))
    ensures c in AgentRun(s, es).transport.disk || RF.AnsweredOrExpiredDuring(s.transport, Projected(s, es), c)
    ensures var v := s.transport.disk[c].save;
            RF.FateOf(s.transport, Projected(s, es), c, v).Kept? <==> RF.OnDisk(AgentRun(s, es).transport, c, v)
  {
    AgentRunsAreTransportRuns(s, es);
    DispatchedInside(s, es);
    RF.NoSilentLoss(s.transport, Projected(s, es), c);
    RF.KeptExactlyWhenOnDisk(s.transport, Projected(s, es), c, s.transport.disk[c].save);
  }
}
