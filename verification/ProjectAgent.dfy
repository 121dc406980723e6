/**
 * The agent as the source holds it: one object whose methods update its fields in place. Each method is
 * one segment between two awaits and is proved to be the step of RegisterLoop or ReplicaAgent it implements.
 */
module ProjectAgent {
  import opened Options
  import opened CommandTransport
  import opened AgentTransport
  import opened ReplicaAgent
  import RL = RegisterLoop

  class ProjectAgent {
    const transport: TransportState
    var isRegistering: bool
    var registerLoopCancelled: bool
    var stopGeneration: nat
    var nextAdmissionMode: RL.AdmissionMode
    /** The suspended register loops and deferred restarts. */
    var loops: map<RL.LoopId, RL.Phase>
    var loopCount: nat
    var restarts: map<RL.RestartId, RL.Restart>
    var restartCount: nat
    var slotHeld: bool
    var shuttingDown: bool
    /** How far doShutdown has come. */
    var shutdownPhase: ShutdownPhase
    var excludedCommandIds: set<CommandId>
    /** The calls that await the shutdown promise. */
    var waiting: set<FrameId>
    var hasRecoveredPendingResults: bool
    var servicesStarted: bool
    var recoveryPass: PassId
    ghost var tally: RL.Tally
    ghost var releases: nat

    ghost function Loop(): RL.Register
      reads this
    {
      RL.Register(isRegistering, registerLoopCancelled, stopGeneration, nextAdmissionMode, loops, loopCount,
                  restarts, restartCount, tally)
    }

    ghost function State(): Agent
      reads this, transport
    {
      Agent(transport.Snapshot(), Loop(), slotHeld, shutdownPhase, excludedCommandIds, waiting,
            hasRecoveredPendingResults, servicesStarted, recoveryPass, releases)
    }

    ghost predicate Valid()
      reads this
    {
      shuttingDown <==> !shutdownPhase.NotStarted?
    }

    constructor (state: TransportState)
      requires Fresh(state.Snapshot())
      ensures transport == state && Valid() && FreshAgent(State())
    {
      transport := state;
      isRegistering, registerLoopCancelled, stopGeneration, nextAdmissionMode := false, false, 0, RL.Initial;
      loops, loopCount, restarts, restartCount := map[], 0, map[], 0;
      slotHeld, shuttingDown, shutdownPhase, excludedCommandIds, waiting := false, false, NotStarted, {}, {};
      hasRecoveredPendingResults, servicesStarted, recoveryPass := false, false, 0;
      tally, releases := RL.Tally(0, 0, 0, 0, 0, 0), 0;
    }

    // ------------------------------------------------------ register loop

    method Start()
      modifies this`isRegistering, this`registerLoopCancelled, this`loops, this`loopCount
      ensures Loop() == RL.Start(old(Loop()))
    {
      if isRegistering { return; }
      isRegistering := true;
      registerLoopCancelled := false;
      loops, loopCount := loops[loopCount := RL.Preparing], loopCount + 1;
    }

    /** The start of the process, which happens once. */
    method ProcessStart()
      modifies this`isRegistering, this`registerLoopCancelled, this`loops, this`loopCount, this`tally
      ensures Loop() == RL.ProcessStart(old(Loop()))
    {
      tally := tally.(starts := tally.starts + 1);
      Start();
    }

    method CancelRegisterLoop()
      modifies this`stopGeneration, this`registerLoopCancelled
      ensures Loop() == RL.Cancel(old(Loop()))
    {
      stopGeneration := stopGeneration + 1;
      registerLoopCancelled := true;
    }

    /** stopTransport as the register loop sees it: the subscriber it may be waiting for is disconnected. */
    method StopTransport()
      modifies this`loops
      ensures Loop() == RL.Disconnect(old(Loop()))
    {
      loops := map l | l in loops :: if loops[l].Connecting? then RL.Disconnected else loops[l];
    }

    method Stop()
      modifies this`stopGeneration, this`registerLoopCancelled, this`loops
      ensures Loop() == RL.Stop(old(Loop()))
    {
      CancelRegisterLoop();
      StopTransport();
    }

    method RestartRegisterLoop()
      modifies this`restarts, this`restartCount
      ensures Loop() == RL.Defer(old(Loop()))
    {
      var previous := if loopCount == 0 then None else Some(loopCount - 1);
      restarts, restartCount := restarts[restartCount := RL.Restart(stopGeneration, previous)], restartCount + 1;
    }

    method OnRestartDue(r: RL.RestartId)
      requires r in restarts
      modifies this
      ensures Loop() == RL.Fire(old(Loop()), r)
      ensures State() == old(State()).(register := Loop()) && Valid() == old(Valid())
    {
      var generation := restarts[r].generation;
      restarts := restarts - {r};
      if stopGeneration != generation { return; }
      Start();
    }

    /** stop() and the deferred restart that follows it. */
    method StopAndRestart()
      modifies this`stopGeneration, this`registerLoopCancelled, this`loops, this`restarts, this`restartCount
      ensures Loop() == RL.Defer(RL.Stop(old(Loop())))
    {
      Stop();
      RestartRegisterLoop();
    }

    method UpdateToken()
      requires Valid() && tally.starts > 0
      modifies this
      ensures Valid() && State() == TokenUpdateStep(old(State()))
    {
      if shuttingDown { return; }
      Reregister();
      assert transport.Snapshot() == old(transport.Snapshot());
      assert Loop() == RL.TokenUpdate(old(Loop()));
    }

    method Reregister()
      modifies this`tally, this`stopGeneration, this`registerLoopCancelled, this`loops, this`restarts, this`restartCount
      ensures Loop() == RL.TokenUpdate(old(Loop()))
    {
      tally := tally.(tokenUpdates := tally.tokenUpdates + 1);
      StopAndRestart();
    }

    method HandleEviction()
      requires Valid() && tally.starts > 0
      modifies this
      ensures Valid() && State() == EvictionStep(old(State())) && !slotHeld
    {
      slotHeld := false;
      if shuttingDown { return; }
      ReenterAsStandby();
    }

    method ReenterAsStandby()
      modifies this`nextAdmissionMode, this`stopGeneration, this`registerLoopCancelled, this`loops, this`restarts,
          this`restartCount
      ensures Loop() == RL.Evict(old(Loop()))
    {
      if registerLoopCancelled { return; }
      nextAdmissionMode := RL.Standby;
      StopAndRestart();
    }

    method EndLoop(l: RL.LoopId)
      modifies this`loops, this`isRegistering
      ensures Loop() == RL.End(old(Loop()), l)
    {
      loops := loops - {l};
      isRegistering := false;
    }

    /** A wait of the loop is over: go on to `next`, unless the loop was cancelled meanwhile. */
    method GoOn(l: RL.LoopId, next: RL.Phase)
      modifies this`loops, this`isRegistering
      ensures Loop() == RL.Continue(old(Loop()), l, next)
    {
      if registerLoopCancelled {
        EndLoop(l);
      } else {
        loops := loops[l := next];
      }
    }

    method PerformRegistration(l: RL.LoopId)
      requires l in loops && loops[l].Preparing?
      modifies this`loops, this`tally
      ensures Loop() == RL.Call(old(Loop()), l)
    {
      loops := loops[l := RL.Registering(nextAdmissionMode, 0)];
      if nextAdmissionMode.Initial? { tally := tally.(initialCalls := tally.initialCalls + 1); }
    }

    /** One of the HTTP requests of the outstanding register call goes out. */
    method SendRegisterRequest(l: RL.LoopId)
      requires RL.AwaitsAnswer(Loop(), l)
      modifies this`loops, this`tally
      ensures Loop() == RL.Post(old(Loop()), l)
    {
      match loops[l] {
        case StandbyRegistering(posts) =>
          loops := loops[l := RL.StandbyRegistering(posts + 1)];
        case Registering(mode, posts) =>
          loops := loops[l := RL.Registering(mode, posts + 1)];
          if mode.Initial? { tally := tally.(initialPosts := tally.initialPosts + 1); }
      }
    }

    /** register() was accepted: record the slot before anything else, then submit earlier results. */
    method OnAdmitted(l: RL.LoopId, p: PassId, order: seq<CommandId>, stuck: set<CommandId>)
      requires AgentEnabled(State(), Admitted(l, p, order, stuck))
      modifies this`isRegistering, this`loops, this`slotHeld, this`recoveryPass, transport
      ensures State() == AdmittedStep(old(State()), l, p, order, stuck)
    {
      if !loops[l].Registering? && registerLoopCancelled {
        EndLoop(l);
        return;
      }
      slotHeld := true;
      loops, recoveryPass := loops[l := RL.Recovering], p;
      transport.StartPass(p, if hasRecoveredPendingResults then PENDING_RESULT_MIN_RETRY_AGE_MS else 0, order, stuck);
    }

    method OnRecovered(l: RL.LoopId)
      requires l in loops && loops[l].Recovering?
      modifies this`hasRecoveredPendingResults, this`loops
      ensures State() == RegisterStep(old(State()), RL.RecoveryDone(l))
    {
      hasRecoveredPendingResults := true;
      loops := loops[l := RL.Syncing];
    }

    /** What startServices leaves of the loop; only now may the next registration be 'initial' again. */
    method FinishServices(l: RL.LoopId)
      modifies this`nextAdmissionMode, this`loops, this`isRegistering
      ensures Loop() == RL.ServicesUp(old(Loop()), l)
    {
      nextAdmissionMode := RL.Initial;
      EndLoop(l);
    }

    method OnServicesStarted(l: RL.LoopId)
      requires l in loops && loops[l].Connecting?
      modifies this`servicesStarted, this`nextAdmissionMode, this`loops, this`isRegistering
      ensures State() == ServicesStep(old(State()), l)
    {
      FinishServices(l);
      servicesStarted := true;
    }

    method FinishServicesLate(l: RL.LoopId)
      modifies this`nextAdmissionMode, this`loops, this`isRegistering, this`tally
      ensures Loop() == RL.LateServices(old(Loop()), l)
    {
      ghost var undoes := RL.ComingBack(Loop());
      FinishServices(l);
      tally := tally.(undone := tally.undone + if undoes then 1 else 0);
    }

    /** The acknowledgement of a subscriber that was disconnected meanwhile: the code goes on as above. */
    method OnLateAcknowledgement(l: RL.LoopId)
      requires l in loops && loops[l].Disconnected?
      modifies this`servicesStarted, this`nextAdmissionMode, this`loops, this`isRegistering, this`tally
      ensures State() == LateServicesStep(old(State()), l)
    {
      FinishServicesLate(l);
      servicesStarted := true;
    }

    method OnRegistrationFailed(l: RL.LoopId)
      requires l in loops && RL.CanThrow(loops[l])
      modifies this`loops, this`isRegistering, this`tally
      ensures Loop() == RL.Throw(old(Loop()), l)
    {
      if registerLoopCancelled {
        EndLoop(l);
        return;
      }
      loops := loops[l := RL.BackingOff];
      tally := tally.(failures := tally.failures + 1);
    }

    // ----------------------------------------------------------- shutdown

    /** Recorded before the memoized promise is looked at: a caller that joins is excluded too. */
    method ExcludeCaller(caller: Option<FrameId>, awaits: bool)
      requires caller.Some? ==> caller.value in transport.calls
      modifies this`excludedCommandIds, this`waiting
      ensures State() == JoinStep(old(State()), caller, awaits)
    {
      if caller.None? { return; }
      excludedCommandIds := excludedCommandIds + {transport.calls[caller.value].id};
      if awaits { waiting := waiting + {caller.value}; }
    }

    method Shutdown(caller: Option<FrameId>, awaits: bool, drainTimeoutMs: nat)
      requires Valid() && (caller.Some? ==> caller.value in transport.calls)
      modifies this, transport`draining
      ensures Valid() && State() == ShutdownStep(old(State()), caller, awaits, drainTimeoutMs)
      ensures shuttingDown && (caller.Some? ==> transport.calls[caller.value].id in excludedCommandIds)
    {
      ExcludeCaller(caller, awaits);
      if shuttingDown { return; }
      shuttingDown := true;
      DoShutdown(transport.now + drainTimeoutMs);
    }

    /** doShutdown up to its first wait. */
    method DoShutdown(deadline: nat)
      modifies this`shutdownPhase, this`stopGeneration, this`registerLoopCancelled, transport`draining
      ensures shutdownPhase == Draining(deadline)
      ensures State() == DrainStep(old(State()), deadline)
    {
      transport.draining := true;
      CancelRegisterLoop();
      shutdownPhase := Draining(deadline);
    }

    method RemainingCommands() returns (remaining: set<CommandId>)
      ensures remaining == Blockers(State())
    {
      remaining := transport.inFlightCommands - excludedCommandIds;
    }

    method PollDrain()
      requires Valid() && shutdownPhase.Draining?
      modifies this`shutdownPhase
      ensures Valid() && State() == PollStep(old(State()))
    {
      var remaining := RemainingCommands();
      if remaining == {} {
        shutdownPhase := Drained;
      } else if transport.now >= shutdownPhase.deadline {
        shutdownPhase := TimedOut;
      }
    }

    method AfterDrain()
      requires Valid() && (shutdownPhase.Drained? || shutdownPhase.TimedOut?)
      modifies this
      ensures Valid() && State() == SettleStep(old(State()))
    {
      if shutdownPhase.Drained? && slotHeld {
        releases := releases + 1;
        shutdownPhase := Releasing;
        return;
      }
      shutdownPhase := Stopped;
      StopTransport();
    }

    method OnReleaseAnswered()
      requires Valid() && shutdownPhase.Releasing?
      modifies this
      ensures Valid() && State() == TeardownStep(old(State()))
    {
      shutdownPhase := Stopped;
      StopTransport();
    }
  }
}
