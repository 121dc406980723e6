/**
 * The register loop told event by event and without its step functions, and what follows for a replica that was
 * evicted: it comes back as a standby.
 */
module Readmission {
  import opened Options
  import opened RegisterLoop

  // ---------------------------------------------------- what each event does

  /** The subscriber a loop may be waiting for is disconnected; the loops stay. */
  ghost predicate Torn(loops: map<LoopId, Phase>, torn: map<LoopId, Phase>) {
    && torn.Keys == loops.Keys
    && forall l :: l in loops ==> torn[l] == if loops[l].Connecting? then Disconnected else loops[l]
  }

  /** Stopped, under a new generation, with a restart deferred that awaits the last loop. */
  ghost predicate StoppedToRestart(r: Register, t: Register) {
    && t.cancelled && t.stopGeneration == r.stopGeneration + 1 && Torn(r.loops, t.loops)
    && t.restarts == r.restarts[r.restartCount := Restart(t.stopGeneration, LastLoop(r))]
    && t.restartCount == r.restartCount + 1
    && t.isRegistering == r.isRegistering && t.loopCount == r.loopCount
  }

  function LastLoop(r: Register): Option<LoopId> {
    if r.loopCount == 0 then None else Some(r.loopCount - 1)
  }

  /** An eviction is acted upon unless the loop is cancelled: standby from now on, stopped, and a restart deferred. */
  lemma EvictedExactly(r: Register)
    requires Enabled(r, Evicted)
    ensures var t := Step(r, Evicted);
            && (r.cancelled ==> t == r)
            && (!r.cancelled ==>
                  StoppedToRestart(r, t) && t.nextAdmissionMode == Standby && t.tally == r.tally && RestartPending(t))
  {
    var t := Step(r, Evicted);
    if !r.cancelled {
      assert t.restarts[r.restartCount].generation == t.stopGeneration;
      TornByDisconnect(r);
    }
  }

  lemma TornByDisconnect(r: Register)
    ensures Torn(r.loops, Disconnect(r).loops)
  {
  }

  /** A token update does the same, and leaves the admission mode as it is. */
  lemma TokenUpdatedExactly(r: Register)
    requires Enabled(r, TokenUpdated)
    ensures var t := Step(r, TokenUpdated);
            && StoppedToRestart(r, t) && t.nextAdmissionMode == r.nextAdmissionMode && RestartPending(t)
            && t.tally == r.tally.(tokenUpdates := r.tally.tokenUpdates + 1)
  {
    var t := Step(r, TokenUpdated);
    assert t.restarts[r.restartCount].generation == t.stopGeneration;
    TornByDisconnect(r);
  }

  /** A stop from outside: cancelled, under a new generation, torn down, and no restart. */
  lemma StoppedExactly(r: Register)
    requires Enabled(r, Stopped)
    ensures var t := Step(r, Stopped);
            && t == r.(cancelled := true, stopGeneration := r.stopGeneration + 1, loops := t.loops)
            && Torn(r.loops, t.loops)
  {
    TornByDisconnect(r);
  }

  lemma CancelledExactly(r: Register)
    requires Enabled(r, Cancelled) && Enabled(r, RegisterLoop.Torn)
    ensures Step(r, Cancelled) == r.(cancelled := true, stopGeneration := r.stopGeneration + 1)
    ensures Step(r, RegisterLoop.Torn) == r.(loops := Step(r, RegisterLoop.Torn).loops)
    ensures Torn(r.loops, Step(r, RegisterLoop.Torn).loops)
  {
    TornByDisconnect(r);
  }

  /** A loop starts unless one is registering. */
  ghost predicate Begun(r: Register, t: Register) {
    if r.isRegistering then t == r
    else t == r.(isRegistering := true, cancelled := false,
                 loops := r.loops[r.loopCount := Preparing], loopCount := r.loopCount + 1)
  }

  /** A restart that is due starts a loop exactly when no stop came in between. */
  lemma FiredExactly(r: Register, q: RestartId)
    requires Enabled(r, Fired(q))
    ensures var t, left := Step(r, Fired(q)), r.(restarts := r.restarts - {q});
            if r.restarts[q].generation == r.stopGeneration then Begun(left, t) else t == left
  {
  }

  lemma StartedExactly(r: Register)
    requires Enabled(r, Started)
    ensures Begun(r.(tally := r.tally.(starts := 1)), Step(r, Started))
  {
  }

  /** Where a loop goes next; None is its end. A cancelled loop ends at the first wait after which the source looks. */
  function NextPhase(phase: Phase, e: Event, cancelled: bool, mode: AdmissionMode): Option<Phase> {
    match e
    case Called(_) => Some(Registering(mode, 0))
    case Posted(_) =>
      (match phase
       case Registering(m, posts) => Some(Registering(m, posts + 1))
       case StandbyRegistering(posts) => Some(StandbyRegistering(posts + 1))
       case _ => None)
    case Rejected(_) => if cancelled then None else Some(StandbyWait)
    case Accepted(_) => if cancelled && !phase.Registering? then None else Some(Recovering)
    case StandbyWoke(_) => if cancelled then None else Some(StandbyRegistering(0))
    case StandbyFailed(_) => if cancelled then None else Some(StandbyWait)
    case RecoveryDone(_) => Some(Syncing)
    case SyncDone(_) => if cancelled then None else Some(Connecting)
    case Threw(_) => if cancelled then None else Some(BackingOff)
    case BackoffOver(_) => if cancelled then None else Some(Preparing)
    case _ => None
  }

  /** Every event of a loop moves it as the table says, and touches nothing but the mode and the tally besides. */
  lemma {:induction false} LoopMovesExactly(r: Register, e: Event)
    requires Enabled(r, e) && OfLoop(e)
    ensures e.loop in r.loops
    ensures var t, next := Step(r, e), NextPhase(r.loops[e.loop], e, r.cancelled, r.nextAdmissionMode);
            && t.loops == (if next.Some? then r.loops[e.loop := next.value] else r.loops - {e.loop})
            && t.isRegistering == (next.Some? && r.isRegistering)
            && t == r.(loops := t.loops, isRegistering := t.isRegistering,
                       nextAdmissionMode := t.nextAdmissionMode, tally := t.tally)
  {
  }

  /** The right to evict comes back exactly when services are up, in time or late. */
  lemma {:induction false} ModeExactly(r: Register, e: Event)
    requires Enabled(r, e)
    ensures Step(r, e).nextAdmissionMode ==
            if e.Connected? || e.LateAck? then Initial
            else if e.Evicted? && !r.cancelled then Standby
            else r.nextAdmissionMode
  {
  }

  /** What each event counts. */
  lemma {:induction false} TallyExactly(r: Register, e: Event)
    requires Enabled(r, e)
    ensures var t, u := r.tally, Step(r, e).tally;
            && u.starts == t.starts + (if e.Started? then 1 else 0)
            && u.tokenUpdates == t.tokenUpdates + (if e.TokenUpdated? then 1 else 0)
            && u.failures == t.failures + (if e.Threw? && !r.cancelled then 1 else 0)
            && u.initialCalls == t.initialCalls + (if e.Called? && r.nextAdmissionMode.Initial? then 1 else 0)
            && u.initialPosts == t.initialPosts
               + (if e.Posted? && r.loops[e.loop].Registering? && r.loops[e.loop].mode.Initial? then 1 else 0)
  {
  }

  // ------------------------------------------------- an evicted replica comes back

  /** Between an eviction and the next request: every loop is on its way to its end, or to its request. */
  ghost predicate OnTheWayBack(r: Register) {
    && r.nextAdmissionMode.Standby?
    && forall l :: l in r.loops ==> OnTheWay(r.cancelled, r.loops[l])
  }

  predicate OnTheWay(cancelled: bool, phase: Phase) {
    (cancelled && !phase.Connecting?) || phase.Preparing? || phase.BackingOff?
  }

  lemma {:induction false} WayBackStep(r: Register, e: Event)
    requires LoopLaw(r) && Enabled(r, e) && OnTheWayBack(r) && !e.Called? && !e.LateAck? && r.tally.starts > 0
    ensures OnTheWayBack(Step(r, e)) && Step(r, e).tally.starts > 0
  {
    ModeExactly(r, e);
    TallyExactly(r, e);
    if OfLoop(e) {
      LoopMovesExactly(r, e);
    } else if e.Evicted? {
      EvictedExactly(r);
    } else if e.TokenUpdated? {
      TokenUpdatedExactly(r);
    } else if e.Fired? {
      FiredExactly(r, e.restart);
    } else if e.Stopped? {
      StoppedExactly(r);
    } else {
      CancelledExactly(r);
    }
  }

  ghost predicate NoRequestNoLateAck(es: seq<Event>) {
    forall e <- es :: !e.Called? && !e.LateAck?
  }

  lemma {:induction false} WayBackRun(r: Register, es: seq<Event>)
    requires LoopLaw(r) && Schedule(r, es) && OnTheWayBack(r) && NoRequestNoLateAck(es) && r.tally.starts > 0
    ensures OnTheWayBack(Run(r, es))
    decreases |es|
  {
    if es != [] {
      assert es[0] in es && forall e :: e in es[1..] ==> e in es;
      StepLoopLaw(r, es[0]);
      WayBackStep(r, es[0]);
      WayBackRun(Step(r, es[0]), es[1..]);
    }
  }

  /**
   * An evicted replica comes back as a standby: whatever happens after the eviction (stops, token updates, failures and
   * further evictions included), the first register request that follows has mode standby, unless an acknowledgement
   * of the subscriber that was disconnected comes in between.
   */
  lemma EvictedComesBackAsStandby(r: Register, es: seq<Event>, l: LoopId)
    requires LoopLaw(r) && Enabled(r, Evicted) && !r.cancelled
    requires Schedule(Step(r, Evicted), es) && NoRequestNoLateAck(es)
    requires Enabled(Run(Step(r, Evicted), es), Called(l))
    ensures var t := Step(Run(Step(r, Evicted), es), Called(l));
            l in t.loops && t.loops[l] == Registering(Standby, 0)
    ensures var u := Run(Step(r, Evicted), es);
            Step(u, Called(l)).tally == u.tally
  {
    var t := Step(r, Evicted);
    EvictedExactly(r);
    StepLoopLaw(r, Evicted);
    TallyExactly(r, Evicted);
    WayBackRun(t, es);
    LoopMovesExactly(Run(t, es), Called(l));
  }

  /** From the eviction on, the right to evict is regained by an acknowledgement alone. */
  lemma {:induction false} StandbyUntilAcknowledged(r: Register, es: seq<Event>)
    requires Schedule(r, es) && r.nextAdmissionMode.Standby? && forall e <- es :: !e.Connected? && !e.LateAck?
    ensures Run(r, es).nextAdmissionMode.Standby?
    decreases |es|
  {
    if es != [] {
      assert es[0] in es && forall e :: e in es[1..] ==> e in es;
      ModeExactly(r, es[0]);
      StandbyUntilAcknowledged(Step(r, es[0]), es[1..]);
    }
  }

  /**
   * And it does come back: unless the eviction caught the loop while it waited for its subscriber, answers alone let
   * the restart fire, and it starts the loop that registers as a standby.
   */
  lemma EvictedRestarts(r: Register) returns (es: seq<Event>)
    requires LoopLaw(r) && Enabled(r, Evicted) && !r.cancelled
    requires forall l :: l in r.loops ==> !r.loops[l].Connecting? && !r.loops[l].Disconnected?
    ensures Schedule(Step(r, Evicted), es)
    ensures var t := Run(Step(r, Evicted), es);
            && CanFire(t, r.restartCount)
            && Step(t, Fired(r.restartCount)).loops == map[t.loopCount := Preparing]
            && !Step(t, Fired(r.restartCount)).cancelled
  {
    var s := Step(r, Evicted);
    EvictedExactly(r);
    StepLoopLaw(r, Evicted);
    es := LandingRun(s, r.restartCount);
    RunLoopLaw(s, es);
    RestartsStay(s, es);
    RestartLands(Run(s, es), r.restartCount);
  }

  lemma {:induction false} RunLoopLaw(r: Register, es: seq<Event>)
    requires LoopLaw(r) && Schedule(r, es)
    ensures LoopLaw(Run(r, es))
    decreases |es|
  {
    if es != [] {
      StepLoopLaw(r, es[0]);
      RunLoopLaw(Step(r, es[0]), es[1..]);
    }
  }
}
