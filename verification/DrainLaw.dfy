/**
 * The shutdown of a replica, told by its events and without the step functions: when a drain ends, how it ends, and
 * what every event leaves of the fields it does not concern.
 */
module DrainLaw {
  import opened Options
  import opened CommandTransport
  import opened ReplicaAgent
  import opened ShutdownTiming
  import RL = RegisterLoop

  /** The commands a drain waits for: in flight, and not driving a shutdown themselves. */
  ghost predicate Waits(s: Agent) {
    exists c :: c in s.transport.inFlight && c !in s.excluded
  }

  /** One poll: nothing left ends the drain, else the deadline does, else nothing changes. */
  lemma PollExactly(s: Agent)
    requires AgentEnabled(s, DrainPolled)
    ensures var t := AgentStep(s, DrainPolled);
            && t == s.(shutdown := t.shutdown)
            && (t.shutdown == Drained <==> !Waits(s))
            && (t.shutdown == TimedOut <==> Waits(s) && s.transport.now >= s.shutdown.deadline)
            && (t == s <==> Waits(s) && s.transport.now < s.shutdown.deadline)
  {
    assert Waits(s) <==> Blockers(s) != {} by {
      if Waits(s) {
        var c :| c in s.transport.inFlight && c !in s.excluded;
        assert c in Blockers(s);
      }
      if Blockers(s) != {} {
        var c :| c in Blockers(s);
      }
    }
  }

  /** The first shutdown call: the deadline is set, no command is admitted any more, the register loop is cancelled. */
  lemma ShutdownBegins(s: Agent, caller: Option<FrameId>, awaits: bool, drainTimeoutMs: nat)
    requires AgentEnabled(s, ShutdownCalled(caller, awaits, drainTimeoutMs)) && s.shutdown == NotStarted
    ensures var t := AgentStep(s, ShutdownCalled(caller, awaits, drainTimeoutMs));
            && t.shutdown == Draining(s.transport.now + drainTimeoutMs)
            && t.transport == s.transport.(draining := true)
            && t.register.cancelled && t.register.stopGeneration == s.register.stopGeneration + 1
            && t.register == s.register.(cancelled := true, stopGeneration := s.register.stopGeneration + 1)
            && t.slotHeld == s.slotHeld && t.releases == s.releases
            && t.hasRecovered == s.hasRecovered && t.servicesStarted == s.servicesStarted
  {
  }

  /** A call that joins is excluded and, if it says so, waits; the timeout of the first call stands. */
  lemma ShutdownJoined(s: Agent, caller: Option<FrameId>, awaits: bool, drainTimeoutMs: nat)
    requires AgentEnabled(s, ShutdownCalled(caller, awaits, drainTimeoutMs))
    ensures var t := AgentStep(s, ShutdownCalled(caller, awaits, drainTimeoutMs));
            && t.excluded == s.excluded + (if caller.Some? then {s.transport.frames[caller.value].id} else {})
            && t.waiting == s.waiting + (if caller.Some? && awaits then {caller.value} else {})
            && (s.shutdown != NotStarted ==> t == s.(excluded := t.excluded, waiting := t.waiting))
  {
  }

  /** After the drain: the slot is released exactly when it drained and a slot is held; else the transport stops. */
  lemma SettlesExactly(s: Agent)
    requires AgentEnabled(s, DrainSettled)
    ensures var t := AgentStep(s, DrainSettled);
            && (t.releases == s.releases + 1 <==> s.shutdown == Drained && s.slotHeld)
            && (t.releases == s.releases <==> !(s.shutdown == Drained && s.slotHeld))
            && t.shutdown == (if s.shutdown == Drained && s.slotHeld then Releasing else Stopped)
            && t == s.(shutdown := t.shutdown, releases := t.releases, register := t.register)
            && (t.shutdown == Releasing ==> t.register == s.register)
            && (t.shutdown == Stopped ==> Torn(s.register, t.register))
  {
  }

  /** The answer to the release, whatever it is, stops the transport. */
  lemma ReleaseAnswerStops(s: Agent)
    requires AgentEnabled(s, ReleaseAnswered)
    ensures var t := AgentStep(s, ReleaseAnswered);
            t == s.(shutdown := Stopped, register := t.register) && Torn(s.register, t.register)
  {
  }

  /** A loop that waits for its subscriber is disconnected; nothing else of the register loop changes. */
  ghost predicate Torn(r: RL.Register, t: RL.Register) {
    && t == r.(loops := t.loops) && t.loops.Keys == r.loops.Keys
    && forall l :: l in r.loops ==> t.loops[l] == if r.loops[l].Connecting? then RL.Disconnected else r.loops[l]
  }

  /** Only a shutdown call, a poll, the end of the drain and the answer to the release move the shutdown on. */
  lemma {:induction false} OthersKeepThePhase(s: Agent, e: AgentEvent)
    requires AgentEnabled(s, e) && !e.ShutdownCalled? && !e.DrainPolled? && !e.DrainSettled? && !e.ReleaseAnswered?
    ensures AgentStep(s, e).shutdown == s.shutdown && AgentStep(s, e).releases == s.releases
    ensures AgentStep(s, e).excluded == s.excluded
  {
  }

  // ----------------------------------------------------------- over whole runs

  /** The state in which the poll was made that ended the drain, if it has ended. */
  ghost function EndingPoll(s: Agent, es: seq<AgentEvent>): Option<Agent>
    requires AgentSchedule(s, es)
    decreases |es|
  {
    if es == [] then None
    else if es[0].DrainPolled? && !AgentStep(s, es[0]).shutdown.Draining? then Some(s)
    else EndingPoll(AgentStep(s, es[0]), es[1..])
  }

  /** How a shutdown with this deadline stands, given the poll that ended its drain, if any. */
  ghost predicate StandsBy(t: Agent, deadline: nat, ending: Option<Agent>) {
    match ending
    case None => t.shutdown == Draining(deadline)
    case Some(u) =>
      && u.shutdown == Draining(deadline) && !t.shutdown.Draining? && t.shutdown != NotStarted
      && (!Waits(u) || u.transport.now >= deadline)
      && (t.shutdown == TimedOut ==> Waits(u) && u.transport.now >= deadline)
      && (t.shutdown == Drained || t.shutdown == Releasing ==> !Waits(u))
  }

  /** After the drain, the only ways on are the ones of its outcome. */
  ghost predicate Ended(s: Agent, drained: bool) {
    match s.shutdown
    case Drained => drained
    case Releasing => drained
    case TimedOut => !drained
    case Stopped => true
    case _ => false
  }

  lemma {:induction false} EndedStep(s: Agent, e: AgentEvent, drained: bool)
    requires AgentEnabled(s, e) && Ended(s, drained)
    ensures Ended(AgentStep(s, e), drained)
    ensures !drained ==> AgentStep(s, e).releases == s.releases
  {
    if e.DrainSettled? {
      SettlesExactly(s);
    } else if e.ReleaseAnswered? {
      ReleaseAnswerStops(s);
    } else if e.ShutdownCalled? {
      ShutdownJoined(s, e.caller, e.awaits, e.drainTimeoutMs);
    } else if !e.DrainPolled? {
      OthersKeepThePhase(s, e);
    }
  }

  lemma {:induction false} EndedRun(s: Agent, es: seq<AgentEvent>, drained: bool)
    requires AgentSchedule(s, es) && Ended(s, drained)
    ensures Ended(AgentRun(s, es), drained)
    ensures !drained ==> AgentRun(s, es).releases == s.releases
    decreases |es|
  {
    if es != [] {
      EndedStep(s, es[0], drained);
      EndedRun(AgentStep(s, es[0]), es[1..], drained);
    }
  }

  /** While it drains, no event but a poll ends the drain, and none moves the deadline. */
  lemma {:induction false} DrainingStep(s: Agent, e: AgentEvent)
    requires AgentEnabled(s, e) && s.shutdown.Draining?
    ensures !e.DrainPolled? ==> AgentStep(s, e).shutdown == s.shutdown
    ensures e.DrainPolled? ==>
              AgentStep(s, e).shutdown ==
              if !Waits(s) then Drained else if s.transport.now >= s.shutdown.deadline then TimedOut else s.shutdown
    ensures AgentStep(s, e).releases == s.releases
  {
    if e.DrainPolled? {
      PollExactly(s);
    } else if e.ShutdownCalled? {
      ShutdownJoined(s, e.caller, e.awaits, e.drainTimeoutMs);
    } else {
      OthersKeepThePhase(s, e);
    }
  }

  /**
   * A drain ends at the first poll that finds nothing to wait for or the deadline passed, and only there. It times out
   * only when it still waits and the deadline has passed, and then nothing is ever released.
   */
  lemma {:induction false} DrainEndsExactly(s: Agent, es: seq<AgentEvent>)
    requires s.shutdown.Draining? && AgentSchedule(s, es)
    ensures StandsBy(AgentRun(s, es), s.shutdown.deadline, EndingPoll(s, es))
    ensures var ending := EndingPoll(s, es);
            ending.None? || Waits(ending.value) ==> AgentRun(s, es).releases == s.releases
    decreases |es|
  {
    if es != [] {
      var t := AgentStep(s, es[0]);
      DrainingStep(s, es[0]);
      if t.shutdown.Draining? {
        DrainEndsExactly(t, es[1..]);
      } else {
        EndedRun(t, es[1..], !Waits(s));
      }
    }
  }

  /**
   * The whole life of a shutdown that is called at some time with some timeout: until `now >= called + timeout` a poll
   * that still finds a command to wait for changes nothing, so the transport keeps running and the slot is kept.
   */
  lemma ShutdownRun(s: Agent, caller: Option<FrameId>, awaits: bool, drainTimeoutMs: nat, es: seq<AgentEvent>)
    requires AgentEnabled(s, ShutdownCalled(caller, awaits, drainTimeoutMs)) && s.shutdown == NotStarted
    requires AgentSchedule(AgentStep(s, ShutdownCalled(caller, awaits, drainTimeoutMs)), es)
    ensures var t := AgentStep(s, ShutdownCalled(caller, awaits, drainTimeoutMs));
            StandsBy(AgentRun(t, es), s.transport.now + drainTimeoutMs, EndingPoll(t, es))
  {
    ShutdownBegins(s, caller, awaits, drainTimeoutMs);
    DrainEndsExactly(AgentStep(s, ShutdownCalled(caller, awaits, drainTimeoutMs)), es);
  }

  // -------------------------------------------------- the drain loop and its looks

  /** What a poll of this state looks at. */
  function LookAt(s: Agent): Look {
    Look(s.transport.now, Blockers(s))
  }

  /**
   * One poll of the replica is one turn of the loop of waitForDrain: it goes on exactly where the loop does, and ends
   * with the outcome the loop returns.
   */
  lemma PollIsALook(s: Agent)
    requires AgentEnabled(s, DrainPolled)
    ensures var t, look := AgentStep(s, DrainPolled), LookAt(s);
            && (t.shutdown.Draining? <==> look.blockers != {} && look.now < s.shutdown.deadline)
            && (t.shutdown == Drained <==> look.blockers == {})
  {
    PollExactly(s);
  }

  // -------------------------------------------------------------- the other fields

  /** The slot is held from an answer that is acted upon until an eviction, and nothing else concerns it. */
  lemma {:induction false} SlotExactly(s: Agent, e: AgentEvent)
    requires AgentEnabled(s, e)
    ensures AgentStep(s, e).slotHeld <==>
            (e.Admitted? && (s.register.loops[e.loop].Registering? || !s.register.cancelled))
            || (s.slotHeld && !(e.Register? && e.register.Evicted?))
  {
  }

  /** The recovery is over with RecoveryDone, services have been started with an acknowledgement, in time or late. */
  lemma {:induction false} FlagsExactly(s: Agent, e: AgentEvent)
    requires AgentEnabled(s, e)
    ensures AgentStep(s, e).hasRecovered <==> s.hasRecovered || (e.Register? && e.register.RecoveryDone?)
    ensures AgentStep(s, e).servicesStarted <==>
            s.servicesStarted || (e.Register? && (e.register.Connected? || e.register.LateAck?))
  {
  }

  /** The pass of an admission takes every file that is not stale, and after the first recovery only those 90 s old. */
  lemma AdmissionLoads(s: Agent, l: RL.LoopId, p: PassId, order: seq<CommandId>, stuck: set<CommandId>, c: CommandId)
    requires AgentEnabled(s, Admitted(l, p, order, stuck)) && FilesNumbered(s.transport) && c in s.transport.disk
    requires s.register.loops[l].Registering? || !s.register.cancelled
    ensures var t, file := AgentStep(s, Admitted(l, p, order, stuck)), s.transport.disk[c];
            && t.recoveryPass == p && p in t.transport.passes
            && (file in t.transport.passes[p] <==>
                !Stale(file, s.transport.now)
                && (s.hasRecovered ==> s.transport.now - file.savedAt >= PENDING_RESULT_MIN_RETRY_AGE_MS))
  {
    var file := s.transport.disk[c];
    if !Stale(file, s.transport.now) && OldEnough(file, s.transport.now, RecoveryAge(s)) {
      LoadedExactly(s.transport, RecoveryAge(s), order, c);
    }
  }

  /** A shutdown ignores token updates and evictions; every other event of the register loop takes its step. */
  lemma {:induction false} RegisterExactly(s: Agent, e: RL.Event)
    requires AgentEnabled(s, Register(e))
    ensures var t := AgentStep(s, Register(e));
            && t.register == (if s.shutdown != NotStarted && (e.TokenUpdated? || e.Evicted?) then s.register
                              else RL.Step(s.register, e))
            && t.transport == s.transport && t.waiting == s.waiting
  {
  }

  /** An accepted answer takes its step, and an answer that is dropped changes nothing but the register loop. */
  lemma AdmittedExactly(s: Agent, l: RL.LoopId, p: PassId, order: seq<CommandId>, stuck: set<CommandId>)
    requires AgentEnabled(s, Admitted(l, p, order, stuck))
    ensures var t := AgentStep(s, Admitted(l, p, order, stuck));
            && t.register == RL.Step(s.register, RL.Accepted(l)) && t.waiting == s.waiting
            && (s.register.cancelled && !s.register.loops[l].Registering? ==> t == s.(register := t.register))
  {
  }

  /**
   * A command event takes its step; of the callers that wait for the shutdown, those that still execute go on
   * waiting.
   */
  lemma CommandExactly(s: Agent, e: Event)
    requires AgentEnabled(s, Command(e))
    ensures var t := AgentStep(s, Command(e));
            && t == s.(transport := Step(s.transport, e), waiting := t.waiting)
            && forall f :: f in t.waiting <==>
                 f in s.waiting && f in t.transport.frames && t.transport.frames[f].phase.Executing?
  {
  }
}
