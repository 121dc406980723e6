/**
 * src/project-agent.ts, first half: the register loop, its deferred restarts and the admission mode.
 */
module RegisterLoop {
  import opened Options
  import RetryStrategy

  type LoopId = nat
  type RestartId = nat

  datatype AdmissionMode = Initial | Standby

  /**
   * Where a register loop is waiting. `posts` counts the HTTP requests of the outstanding register call.
   * `Disconnected` is a loop whose subscriber was disconnected while it waited for the connection. An acknowledgement
   * that was under way then may still come, and the loop goes on as if nothing had happened.
   */
  datatype Phase =
    | Preparing
    | Registering(mode: AdmissionMode, posts: nat)
    | StandbyWait
    | StandbyRegistering(posts: nat)
    | Recovering
    | Syncing
    | Connecting
    | Disconnected
    | BackingOff

  /** A deferred restart: the generation it captured and the loop whose end it awaits. */
  datatype Restart = Restart(generation: nat, previous: Option<LoopId>)

  /**
   * How often each cause and each kind of register request has occurred. `undone` are the evictions that a late
   * acknowledgement has undone.
   */
  datatype Tally = Tally(starts: nat, tokenUpdates: nat, failures: nat, undone: nat, initialCalls: nat,
      initialPosts: nat)

  datatype Register = Register(
    isRegistering: bool,
    cancelled: bool,
    stopGeneration: nat,
    nextAdmissionMode: AdmissionMode,
    loops: map<LoopId, Phase>,
    loopCount: nat,
    restarts: map<RestartId, Restart>,
    restartCount: nat,
    tally: Tally)

  /** A new process, before its first start. */
  predicate IsFresh(r: Register) {
    && !r.isRegistering && !r.cancelled && r.stopGeneration == 0 && r.nextAdmissionMode == Initial
    && r.loops == map[] && r.loopCount == 0 && r.restarts == map[] && r.restartCount == 0
    && r.tally == Tally(0, 0, 0, 0, 0, 0)
  }

  // ---------------------------------------------------------- operations

  function Start(r: Register): Register {
    if r.isRegistering then r
    else r.(isRegistering := true, cancelled := false,
            loops := r.loops[r.loopCount := Preparing], loopCount := r.loopCount + 1)
  }

  function ProcessStart(r: Register): Register {
    Start(r.(tally := r.tally.(starts := r.tally.starts + 1)))
  }

  function Cancel(r: Register): Register {
    r.(stopGeneration := r.stopGeneration + 1, cancelled := true)
  }

  /** stopTransport disconnects a subscriber that still waits for its acknowledgement. */
  function Disconnect(r: Register): Register {
    r.(loops := map l | l in r.loops :: if r.loops[l].Connecting? then Disconnected else r.loops[l])
  }

  function Stop(r: Register): Register {
    Disconnect(Cancel(r))
  }

  function LatestLoop(r: Register): Option<LoopId> {
    if r.loopCount == 0 then None else Some(r.loopCount - 1)
  }

  function Defer(r: Register): Register {
    r.(restarts := r.restarts[r.restartCount := Restart(r.stopGeneration, LatestLoop(r))],
       restartCount := r.restartCount + 1)
  }

  function TokenUpdate(r: Register): Register {
    Defer(Stop(r)).(tally := r.tally.(tokenUpdates := r.tally.tokenUpdates + 1))
  }

  function Evict(r: Register): Register {
    if r.cancelled then r else Defer(Stop(r.(nextAdmissionMode := Standby)))
  }

  function Fire(r: Register, restart: RestartId): Register
    requires restart in r.restarts
  {
    var fired := r.(restarts := r.restarts - {restart});
    if r.restarts[restart].generation != r.stopGeneration then fired else Start(fired)
  }

  /** A deferred restart awaits the loop it captured. */
  predicate CanFire(r: Register, restart: RestartId) {
    restart in r.restarts && (r.restarts[restart].previous.Some? ==> r.restarts[restart].previous.value !in r.loops)
  }

  function End(r: Register, l: LoopId): Register {
    r.(loops := r.loops - {l}, isRegistering := false)
  }

  function At(r: Register, l: LoopId, phase: Phase): Register {
    r.(loops := r.loops[l := phase])
  }

  /** A wait inside the loop is over: go on, unless the loop was cancelled meanwhile. */
  function Continue(r: Register, l: LoopId, phase: Phase): Register {
    if r.cancelled then End(r, l) else At(r, l, phase)
  }

  /** The register call goes out under the sticky mode. */
  function Call(r: Register, l: LoopId): Register {
    var sent := At(r, l, Registering(r.nextAdmissionMode, 0));
    if r.nextAdmissionMode.Initial? then sent.(tally := r.tally.(initialCalls := r.tally.initialCalls + 1)) else sent
  }

  predicate AwaitsAnswer(r: Register, l: LoopId) {
    l in r.loops && (r.loops[l].Registering? || r.loops[l].StandbyRegistering?)
  }

  /** One HTTP request of the outstanding call reaches the server. */
  function Post(r: Register, l: LoopId): Register
    requires AwaitsAnswer(r, l)
  {
    if r.loops[l].StandbyRegistering? then At(r, l, StandbyRegistering(r.loops[l].posts + 1)) else
    var posted := At(r, l, Registering(r.loops[l].mode, r.loops[l].posts + 1));
    if r.loops[l].mode.Initial? then posted.(tally := r.tally.(initialPosts := r.tally.initialPosts + 1)) else posted
  }

  /** Whether an accepted answer is acted upon: a cancelled standby wait drops it. */
  predicate TakesSlot(r: Register, l: LoopId) {
    l in r.loops && (r.loops[l].Registering? || !r.cancelled)
  }

  function Accept(r: Register, l: LoopId): Register {
    if TakesSlot(r, l) then At(r, l, Recovering) else End(r, l)
  }

  function ServicesUp(r: Register, l: LoopId): Register {
    End(r, l).(nextAdmissionMode := Initial)
  }

  /** The agent is evicted and about to come back as a standby. */
  predicate ComingBack(r: Register) {
    r.nextAdmissionMode.Standby? && RestartPending(r)
  }

  /** The acknowledgement comes after the disconnect: startServices finishes, and resets the mode, all the same. */
  function LateServices(r: Register, l: LoopId): Register {
    ServicesUp(r, l).(tally := r.tally.(undone := r.tally.undone + if ComingBack(r) then 1 else 0))
  }

  function Throw(r: Register, l: LoopId): Register {
    if r.cancelled then End(r, l)
    else At(r, l, BackingOff).(tally := r.tally.(failures := r.tally.failures + 1))
  }

  // ----------------------------------------------------------------- law

  predicate AnyCurrent(restarts: map<RestartId, Restart>, generation: nat) {
    exists q :: q in restarts && restarts[q].generation == generation
  }

  /** Some deferred restart has not been superseded by a later stop. */
  predicate RestartPending(r: Register) {
    AnyCurrent(r.restarts, r.stopGeneration)
  }

  /**
   * At most one loop is active, and it is the last one started. Every pending restart has a generation
   * of its own; a current one finds the agent stopped and awaits the last loop.
   */
  ghost predicate LoopLaw(r: Register) {
    && (r.isRegistering <==> r.loops != map[])
    && (forall l :: l in r.loops ==> l + 1 == r.loopCount)
    && (forall q :: q in r.restarts ==> q < r.restartCount && r.restarts[q].generation <= r.stopGeneration)
    && (forall p, q :: p in r.restarts && q in r.restarts && r.restarts[p].generation == r.restarts[q].generation ==>
         p == q)
    && (forall q :: q in r.restarts && r.restarts[q].generation == r.stopGeneration ==>
         r.restarts[q].previous == LatestLoop(r))
    && (RestartPending(r) ==> r.cancelled && forall l :: l in r.loops ==> !r.loops[l].Connecting?)
    && (r.tally.starts == 0 ==> r.restarts == map[] && r.loopCount == 0)
  }

  lemma StartLaw(r: Register)
    requires LoopLaw(r) && !RestartPending(r) && r.tally.starts > 0
    ensures LoopLaw(Start(r)) && !RestartPending(Start(r))
  {
    assert !r.isRegistering ==> r.loopCount in Start(r).loops;
  }

  lemma ProcessStartLaw(r: Register)
    requires LoopLaw(r) && r.tally.starts == 0
    ensures LoopLaw(ProcessStart(r)) && !RestartPending(ProcessStart(r))
  {
    StartLaw(r.(tally := r.tally.(starts := 1)));
  }

  lemma CancelLaw(r: Register)
    requires LoopLaw(r)
    ensures LoopLaw(Cancel(r)) && !RestartPending(Cancel(r))
  {
  }

  lemma DisconnectLaw(r: Register)
    requires LoopLaw(r)
    ensures LoopLaw(Disconnect(r))
  {
    assert Disconnect(r).loops.Keys == r.loops.Keys;
  }

  lemma StopLaw(r: Register)
    requires LoopLaw(r)
    ensures LoopLaw(Stop(r)) && !RestartPending(Stop(r))
  {
    CancelLaw(r);
    DisconnectLaw(Cancel(r));
  }

  lemma DeferLaw(r: Register)
    requires LoopLaw(r) && r.tally.starts > 0
    ensures LoopLaw(Defer(Stop(r)))
  {
    StopLaw(r);
    DeferStopped(Stop(r));
  }

  lemma DeferStopped(r: Register)
    requires LoopLaw(r) && !RestartPending(r) && r.cancelled && r.tally.starts > 0
    requires forall l :: l in r.loops ==> !r.loops[l].Connecting?
    ensures LoopLaw(Defer(r))
  {
    forall q | q in r.restarts ensures r.restarts[q].generation != r.stopGeneration {}
  }

  lemma FireLaw(r: Register, restart: RestartId)
    requires LoopLaw(r) && restart in r.restarts
    ensures LoopLaw(Fire(r, restart))
    ensures RestartPending(Fire(r, restart)) ==> RestartPending(r) && r.restarts[restart].generation != r.stopGeneration
  {
    var fired := r.(restarts := r.restarts - {restart});
    if RestartPending(fired) {
      var q :| q in fired.restarts && fired.restarts[q].generation == fired.stopGeneration;
      assert q in r.restarts;
    }
    assert LoopLaw(fired);
    if r.restarts[restart].generation == r.stopGeneration { StartLaw(fired); }
  }

  /** A restart that fires under the current generation always starts a loop: it is never dropped. */
  lemma RestartLands(r: Register, restart: RestartId)
    requires LoopLaw(r) && CanFire(r, restart) && r.restarts[restart].generation == r.stopGeneration
    ensures Fire(r, restart).loops == map[r.loopCount := Preparing] && !Fire(r, restart).cancelled
  {
    assert r.loops == map[];
  }

  /** The waits of a loop that only an acknowledgement after the disconnect, or an error, can end. */
  predicate Stuck(r: Register) {
    exists l :: l in r.loops && r.loops[l].Disconnected?
  }

  /** At most one pending restart can still start a loop. */
  lemma OneCurrentRestart(r: Register, p: RestartId, q: RestartId)
    requires LoopLaw(r) && p in r.restarts && q in r.restarts
    requires r.restarts[p].generation == r.stopGeneration == r.restarts[q].generation
    ensures p == q
  {
  }

  // ------------------------------------------------------------- charges

  /** A process start, a token update, or a failed attempt that is going to be retried. */
  function Causes(t: Tally): nat {
    t.starts + t.tokenUpdates + t.failures
  }

  /** What an initial registration may be charged to: a cause, or an eviction undone. */
  function Charges(t: Tally): nat {
    Causes(t) + t.undone
  }

  /** The phase of the one active loop. */
  function Active(loops: map<LoopId, Phase>, loopCount: nat): Option<Phase> {
    if loopCount > 0 && loopCount - 1 in loops then Some(loops[loopCount - 1]) else None
  }

  /** The initial call the active loop is on its way to, under the sticky mode. */
  function LoopOwes(r: Register): nat {
    var active := Active(r.loops, r.loopCount);
    if r.nextAdmissionMode.Initial? && (active == Some(Preparing) || active == Some(BackingOff)) then 1 else 0
  }

  /** The initial call a pending restart will lead to. */
  ghost function RestartOwes(r: Register): nat {
    if r.nextAdmissionMode.Initial? && RestartPending(r) then 1 else 0
  }

  /** The HTTP requests an outstanding initial call may still send. */
  function PostsLeft(r: Register): nat {
    match Active(r.loops, r.loopCount)
    case Some(Registering(Initial, posts)) =>
      if posts <= RetryStrategy.API_MAX_RETRIES then RetryStrategy.API_MAX_RETRIES - posts else 0
    case _ => 0
  }

  /**
   * No initial registration is ever owed to an eviction alone: each one is paid for by a process start, a token update,
   * a failed attempt or an acknowledgement that undoes the eviction, and each sends at most API_MAX_RETRIES requests.
   */
  ghost predicate ChargeLaw(r: Register) {
    && r.tally.initialCalls + LoopOwes(r) + RestartOwes(r) <= Charges(r.tally)
    && r.tally.initialPosts + PostsLeft(r) <= RetryStrategy.API_MAX_RETRIES * r.tally.initialCalls
  }

  lemma StopCharge(r: Register)
    requires LoopLaw(r)
    ensures RestartOwes(Stop(r)) == 0 && LoopOwes(Stop(r)) == LoopOwes(r) && PostsLeft(Stop(r)) == PostsLeft(r)
  {
    StopLaw(r);
  }

  lemma TokenUpdateCharge(r: Register)
    requires LoopLaw(r) && ChargeLaw(r)
    ensures ChargeLaw(TokenUpdate(r))
  {
    StopCharge(r);
  }

  lemma EvictCharge(r: Register)
    requires LoopLaw(r) && ChargeLaw(r)
    ensures ChargeLaw(Evict(r))
  {
    StopCharge(r.(nextAdmissionMode := Standby));
  }

  lemma FireCharge(r: Register, restart: RestartId)
    requires LoopLaw(r) && ChargeLaw(r) && CanFire(r, restart)
    ensures ChargeLaw(Fire(r, restart))
  {
    FireLaw(r, restart);
    assert r.restarts[restart].generation == r.stopGeneration ==> RestartPending(r) && r.loops == map[];
  }

  // --------------------------------------------------------------- steps

  datatype Event =
    | Started
    | Stopped
    | TokenUpdated
    | Evicted
    | Fired(restart: RestartId)
    | Cancelled
    | Torn
    | Called(loop: LoopId)
    | Posted(loop: LoopId)
    | Rejected(loop: LoopId)
    | Accepted(loop: LoopId)
    | StandbyWoke(loop: LoopId)
    | StandbyFailed(loop: LoopId)
    | RecoveryDone(loop: LoopId)
    | SyncDone(loop: LoopId)
    | Connected(loop: LoopId)
    | LateAck(loop: LoopId)
    | Threw(loop: LoopId)
    | BackoffOver(loop: LoopId)

  predicate CanThrow(phase: Phase) {
    !phase.StandbyWait? && !phase.StandbyRegistering? && !phase.BackingOff?
  }

  predicate Enabled(r: Register, e: Event) {
    match e
    case Started => r.tally.starts == 0
    case Fired(restart) => CanFire(r, restart)
    case Called(l) => l in r.loops && r.loops[l].Preparing?
    case Posted(l) => AwaitsAnswer(r, l) && r.loops[l].posts < RetryStrategy.API_MAX_RETRIES
    case Rejected(l) => AwaitsAnswer(r, l)
    case Accepted(l) => AwaitsAnswer(r, l)
    case StandbyWoke(l) => l in r.loops && r.loops[l].StandbyWait?
    case StandbyFailed(l) => l in r.loops && r.loops[l].StandbyRegistering?
    case RecoveryDone(l) => l in r.loops && r.loops[l].Recovering?
    case SyncDone(l) => l in r.loops && r.loops[l].Syncing?
    case Connected(l) => l in r.loops && r.loops[l].Connecting?
    case LateAck(l) => l in r.loops && r.loops[l].Disconnected?
    case Threw(l) => l in r.loops && CanThrow(r.loops[l])
    case BackoffOver(l) => l in r.loops && r.loops[l].BackingOff?
    case _ => r.tally.starts > 0
  }

  function Step(r: Register, e: Event): Register
    requires Enabled(r, e)
  {
    match e
    case Started => ProcessStart(r)
    case Stopped => Stop(r)
    case TokenUpdated => TokenUpdate(r)
    case Evicted => Evict(r)
    case Fired(restart) => Fire(r, restart)
    case Cancelled => Cancel(r)
    case Torn => Disconnect(r)
    case Called(l) => Call(r, l)
    case Posted(l) => Post(r, l)
    case Rejected(l) => Continue(r, l, StandbyWait)
    case Accepted(l) => Accept(r, l)
    case StandbyWoke(l) => Continue(r, l, StandbyRegistering(0))
    case StandbyFailed(l) => Continue(r, l, StandbyWait)
    case RecoveryDone(l) => At(r, l, Syncing)
    case SyncDone(l) => Continue(r, l, Connecting)
    case Connected(l) => ServicesUp(r, l)
    case LateAck(l) => LateServices(r, l)
    case Threw(l) => Throw(r, l)
    case BackoffOver(l) => Continue(r, l, Preparing)
  }

  predicate OfLoop(e: Event) {
    !e.Started? && !e.Stopped? && !e.TokenUpdated? && !e.Evicted? && !e.Fired? && !e.Cancelled? && !e.Torn?
  }

  /** A step of the loop itself moves it to another phase or ends it, and touches no restart. */
  lemma {:induction false} LoopStepShape(r: Register, e: Event)
    requires OfLoop(e) && Enabled(r, e)
    ensures var t := Step(r, e);
            && t.cancelled == r.cancelled && t.stopGeneration == r.stopGeneration && t.restarts == r.restarts
            && t.restartCount == r.restartCount && t.loopCount == r.loopCount && t.tally.starts == r.tally.starts
            && e.loop in r.loops
            && (|| (t.loops == r.loops - {e.loop} && !t.isRegistering)
                || (e.loop in t.loops && t.loops == r.loops[e.loop := t.loops[e.loop]]
                     && t.isRegistering == r.isRegistering
                    && (t.loops[e.loop].Connecting? ==> !r.cancelled)))
  {
  }

  /** LoopLaw looks at the loops only through how many there are, which one it is, and whether it is connecting. */
  lemma LoopChangeLaw(r: Register, t: Register, l: LoopId)
    requires LoopLaw(r) && l in r.loops
    requires t.cancelled == r.cancelled && t.stopGeneration == r.stopGeneration && t.restarts == r.restarts
    requires t.restartCount == r.restartCount && t.loopCount == r.loopCount && t.tally.starts == r.tally.starts
    requires (t.loops == map[] && !t.isRegistering)
             || (l in t.loops && t.loops.Keys == {l} && t.isRegistering && (t.loops[l].Connecting? ==> !r.cancelled))
    ensures LoopLaw(t)
  {
  }

  lemma {:induction false} LoopStepLaw(r: Register, e: Event)
    requires LoopLaw(r) && OfLoop(e) && Enabled(r, e)
    ensures LoopLaw(Step(r, e))
  {
    LoopStepShape(r, e);
    var t := Step(r, e);
    OnlyLoop(r, e.loop);
    if e.loop !in t.loops { assert t.loops == map[]; }
    LoopChangeLaw(r, t, e.loop);
  }

  lemma OnlyLoop(r: Register, l: LoopId)
    requires LoopLaw(r) && l in r.loops
    ensures r.loops.Keys == {l} && r.isRegistering
  {
  }

  lemma TokenUpdateLaw(r: Register)
    requires LoopLaw(r) && r.tally.starts > 0
    ensures LoopLaw(TokenUpdate(r))
  {
    DeferLaw(r);
    var t := Defer(Stop(r));
    assert LoopLaw(t);
  }

  lemma EvictLaw(r: Register)
    requires LoopLaw(r) && r.tally.starts > 0
    ensures LoopLaw(Evict(r))
  {
    DeferLaw(r.(nextAdmissionMode := Standby));
  }

  lemma {:induction false} StepLoopLaw(r: Register, e: Event)
    requires LoopLaw(r) && Enabled(r, e)
    ensures LoopLaw(Step(r, e))
  {
    match e
    case Started => ProcessStartLaw(r);
    case Stopped => StopLaw(r);
    case TokenUpdated => TokenUpdateLaw(r);
    case Evicted => EvictLaw(r);
    case Fired(restart) => FireLaw(r, restart);
    case Cancelled => CancelLaw(r);
    case Torn => DisconnectLaw(r);
    case _ => LoopStepLaw(r, e);
  }

  /** The step of a loop pays for every initial call it makes, and a failed attempt pays for its retry. */
  lemma {:induction false} LoopStepCharge(r: Register, e: Event)
    requires LoopLaw(r) && ChargeLaw(r) && OfLoop(e) && Enabled(r, e)
    ensures ChargeLaw(Step(r, e))
  {
    assert Active(r.loops, r.loopCount) == Some(r.loops[e.loop]);
  }

  lemma {:induction false} StepChargeLaw(r: Register, e: Event)
    requires LoopLaw(r) && ChargeLaw(r) && Enabled(r, e)
    ensures ChargeLaw(Step(r, e))
  {
    match e
    case Started => StartLaw(r.(tally := r.tally.(starts := 1)));
    case Stopped => StopCharge(r);
    case TokenUpdated => TokenUpdateCharge(r);
    case Evicted => EvictCharge(r);
    case Fired(restart) => FireCharge(r, restart);
    case Cancelled => CancelLaw(r);
    case Torn =>
    case _ => LoopStepCharge(r, e);
  }

  lemma FreshLaws(r: Register)
    requires IsFresh(r)
    ensures LoopLaw(r) && ChargeLaw(r)
  {
    assert !RestartPending(r) && Active(r.loops, r.loopCount) == None;
  }

  // ---------------------------------------------------------------- runs

  predicate Schedule(r: Register, es: seq<Event>)
    decreases |es|
  {
    es == [] || (Enabled(r, es[0]) && Schedule(Step(r, es[0]), es[1..]))
  }

  function Run(r: Register, es: seq<Event>): Register
    requires Schedule(r, es)
    decreases |es|
  {
    if es == [] then r else Run(Step(r, es[0]), es[1..])
  }

  lemma {:induction false} RunLaws(r: Register, es: seq<Event>)
    requires LoopLaw(r) && ChargeLaw(r) && Schedule(r, es)
    ensures LoopLaw(Run(r, es)) && ChargeLaw(Run(r, es))
    decreases |es|
  {
    if es != [] {
      StepLoopLaw(r, es[0]);
      StepChargeLaw(r, es[0]);
      RunLaws(Step(r, es[0]), es[1..]);
    }
  }

  lemma AtMostOneLoop(r: Register)
    requires LoopLaw(r)
    ensures |r.loops| <= 1
  {
    if r.loops != map[] {
      assert r.loops.Keys == {(r.loopCount - 1) as nat};
      assert |r.loops| == |r.loops.Keys|;
    }
  }

  /** In every run, at most one loop is active and initial calls never outnumber what they are charged to. */
  lemma {:induction false} InitialCallsArePaid(r: Register, es: seq<Event>)
    requires IsFresh(r) && Schedule(r, es)
    ensures |Run(r, es).loops| <= 1
    ensures Run(r, es).tally.initialCalls <= Charges(Run(r, es).tally)
    ensures Run(r, es).tally.initialPosts <= RetryStrategy.API_MAX_RETRIES * Charges(Run(r, es).tally)
  {
    FreshLaws(r);
    RunLaws(r, es);
    AtMostOneLoop(Run(r, es));
  }

  /** This acknowledgement follows a disconnect, and undoes an eviction. */
  predicate Undoes(r: Register, e: Event) {
    e.LateAck? && ComingBack(r)
  }

  /** No acknowledgement of the run undoes an eviction. */
  predicate NothingUndone(r: Register, es: seq<Event>)
    requires Schedule(r, es)
    decreases |es|
  {
    es == [] || (!Undoes(r, es[0]) && NothingUndone(Step(r, es[0]), es[1..]))
  }

  lemma {:induction false} UndoneCounted(r: Register, e: Event)
    requires Enabled(r, e)
    ensures Step(r, e).tally.undone == r.tally.undone + if Undoes(r, e) then 1 else 0
  {
  }

  lemma {:induction false} NothingUndoneCountsNone(r: Register, es: seq<Event>)
    requires Schedule(r, es)
    ensures Run(r, es).tally.undone >= r.tally.undone
    ensures NothingUndone(r, es) <==> Run(r, es).tally.undone == r.tally.undone
    decreases |es|
  {
    if es != [] {
      UndoneCounted(r, es[0]);
      NothingUndoneCountsNone(Step(r, es[0]), es[1..]);
    }
  }

  /** While no late acknowledgement undoes an eviction, the causes alone pay for every initial call. */
  lemma {:induction false} CausesPay(r: Register, es: seq<Event>)
    requires IsFresh(r) && Schedule(r, es) && NothingUndone(r, es)
    ensures Run(r, es).tally.initialCalls <= Causes(Run(r, es).tally)
    ensures Run(r, es).tally.initialPosts <= RetryStrategy.API_MAX_RETRIES * Causes(Run(r, es).tally)
  {
    InitialCallsArePaid(r, es);
    NothingUndoneCountsNone(r, es);
  }

  /** The initial calls the loop or a pending restart is on its way to. */
  ghost function Owed(r: Register): nat {
    LoopOwes(r) + RestartOwes(r)
  }

  /** A late acknowledgement hands out a right to evict exactly when it undoes an eviction whose restart is pending. */
  lemma LateAckUndoesEvictionExactlyWhen(r: Register, l: LoopId)
    requires LoopLaw(r) && Enabled(r, LateAck(l))
    ensures Owed(Step(r, LateAck(l))) > Owed(r) <==> Undoes(r, LateAck(l))
  {
    assert Active(r.loops, r.loopCount) == Some(Disconnected);
  }

  /** One event more. */
  lemma {:induction false} RunSnoc(r: Register, es: seq<Event>, e: Event)
    requires Schedule(r, es) && Enabled(Run(r, es), e)
    ensures Schedule(r, es + [e]) && Run(r, es + [e]) == Step(Run(r, es), e)
    decreases |es|
  {
    if es == [] {
      assert [e][1..] == [];
    } else {
      assert (es + [e])[1..] == es[1..] + [e];
      RunSnoc(Step(r, es[0]), es[1..], e);
    }
  }

  // ---------------------------------------------------- whether a restart ever lands

  /** The subscriber says nothing any more: no acknowledgement that is late, and no error. */
  ghost predicate Silent(es: seq<Event>) {
    forall e <- es :: !e.LateAck? && !e.Threw?
  }

  /** Without these two, a loop that was disconnected stays where it is, whatever else happens. */
  lemma {:induction false} DisconnectedStays(r: Register, e: Event, l: LoopId)
    requires Enabled(r, e) && l in r.loops && r.loops[l].Disconnected? && !e.LateAck? && !e.Threw?
    requires LoopLaw(r)
    ensures l in Step(r, e).loops && Step(r, e).loops[l].Disconnected?
  {
  }

  lemma {:induction false} DisconnectedForever(r: Register, es: seq<Event>, l: LoopId)
    requires LoopLaw(r) && Schedule(r, es) && Silent(es) && l in r.loops && r.loops[l].Disconnected?
    ensures l in Run(r, es).loops && Run(r, es).loops[l].Disconnected?
    decreases |es|
  {
    if es != [] {
      assert es[0] in es && forall e :: e in es[1..] ==> e in es;
      StepLoopLaw(r, es[0]);
      DisconnectedStays(r, es[0], l);
      DisconnectedForever(Step(r, es[0]), es[1..], l);
    }
  }

  /** Moves of the loop itself, which leave the pending restarts alone. */
  ghost predicate OnlyLoopMoves(es: seq<Event>) {
    forall e <- es :: OfLoop(e)
  }

  /** The answer that ends a wait of a cancelled loop, or moves it on to one that does. */
  function Onward(phase: Phase, l: LoopId): Event {
    match phase
    case Preparing => Called(l)
    case Registering(_, _) => Rejected(l)
    case StandbyWait => StandbyWoke(l)
    case StandbyRegistering(_) => StandbyFailed(l)
    case Recovering => RecoveryDone(l)
    case Syncing => SyncDone(l)
    case Connecting => Connected(l)
    case Disconnected => LateAck(l)
    case BackingOff => BackoffOver(l)
  }

  /** A loop that is cancelled and not disconnected ends within two answers. */
  lemma CancelledLoopEnds(r: Register, l: LoopId) returns (es: seq<Event>)
    requires LoopLaw(r) && r.cancelled && l in r.loops && !r.loops[l].Disconnected? && !r.loops[l].Connecting?
    ensures Schedule(r, es) && Silent(es) && OnlyLoopMoves(es) && l !in Run(r, es).loops
  {
    var e := Onward(r.loops[l], l);
    var t := Step(r, e);
    RunSnoc(r, [], e);
    es := [] + [e];
    if l in t.loops {
      RunSnoc(r, es, Onward(t.loops[l], l));
      es := es + [Onward(t.loops[l], l)];
    }
  }

  lemma {:induction false} RestartsStay(r: Register, es: seq<Event>)
    requires Schedule(r, es) && OnlyLoopMoves(es)
    ensures Run(r, es).restarts == r.restarts && Run(r, es).stopGeneration == r.stopGeneration
    decreases |es|
  {
    if es != [] {
      assert es[0] in es && forall e :: e in es[1..] ==> e in es;
      LoopStepShape(r, es[0]);
      RestartsStay(Step(r, es[0]), es[1..]);
    }
  }

  /**
   * A current restart can be made to land, by answers to the loop it waits for and without an error or a late
   * acknowledgement, exactly when that loop is not waiting for a subscriber that was disconnected.
   */
  lemma RestartCanLandExactlyWhen(r: Register, q: RestartId)
    requires LoopLaw(r) && q in r.restarts && r.restarts[q].generation == r.stopGeneration
    ensures (exists es :: Schedule(r, es) && Silent(es) && OnlyLoopMoves(es) && CanFire(Run(r, es), q)) <==> !Stuck(r)
  {
    assert RestartPending(r) && r.restarts[q].previous == LatestLoop(r);
    if Stuck(r) {
      var l :| l in r.loops && r.loops[l].Disconnected?;
      forall es | Schedule(r, es) && Silent(es) && OnlyLoopMoves(es) ensures !CanFire(Run(r, es), q) {
        StuckNeverFires(r, q, l, es);
      }
    } else {
      var es := LandingRun(r, q);
    }
  }

  /** While the subscriber is silent, a restart that waits for its loop never fires, whatever else happens. */
  lemma StuckNeverFires(r: Register, q: RestartId, l: LoopId, es: seq<Event>)
    requires LoopLaw(r) && l in r.loops && r.loops[l].Disconnected? && Schedule(r, es) && Silent(es)
    requires q in r.restarts && r.restarts[q].previous == Some(l)
    ensures !CanFire(Run(r, es), q)
  {
    DisconnectedForever(r, es, l);
    RestartKept(r, q, es);
  }

  /** A deferred restart is dropped only by firing, and keeps the loop it waits for. */
  lemma {:induction false} RestartKept(r: Register, q: RestartId, es: seq<Event>)
    requires LoopLaw(r) && q in r.restarts && Schedule(r, es)
    ensures q in Run(r, es).restarts ==> Run(r, es).restarts[q] == r.restarts[q]
    decreases |es|
  {
    if es != [] {
      StepLoopLaw(r, es[0]);
      RestartStep(r, q, es[0]);
      if q in Step(r, es[0]).restarts {
        RestartKept(Step(r, es[0]), q, es[1..]);
      } else {
        RestartGone(Step(r, es[0]), q, es[1..]);
      }
    }
  }

  lemma {:induction false} RestartStep(r: Register, q: RestartId, e: Event)
    requires LoopLaw(r) && q < r.restartCount && Enabled(r, e)
    ensures q in Step(r, e).restarts ==> q in r.restarts && Step(r, e).restarts[q] == r.restarts[q]
    ensures q < Step(r, e).restartCount
  {
    if OfLoop(e) { LoopStepShape(r, e); }
  }

  lemma {:induction false} RestartGone(r: Register, q: RestartId, es: seq<Event>)
    requires LoopLaw(r) && q !in r.restarts && q < r.restartCount && Schedule(r, es)
    ensures q !in Run(r, es).restarts
    decreases |es|
  {
    if es != [] {
      StepLoopLaw(r, es[0]);
      RestartStep(r, q, es[0]);
      RestartGone(Step(r, es[0]), q, es[1..]);
    }
  }

  lemma LandingRun(r: Register, q: RestartId) returns (es: seq<Event>)
    requires LoopLaw(r) && q in r.restarts && r.restarts[q].generation == r.stopGeneration && !Stuck(r)
    ensures Schedule(r, es) && Silent(es) && OnlyLoopMoves(es) && CanFire(Run(r, es), q)
  {
    assert RestartPending(r) && r.restarts[q].previous == LatestLoop(r);
    var l := r.loopCount - 1;
    if r.loopCount == 0 || l !in r.loops {
      es := [];
    } else {
      assert !r.loops[l].Connecting? && !r.loops[l].Disconnected?;
      es := CancelledLoopEnds(r, l);
      RestartsStay(r, es);
    }
  }

  /** A run into it: a token update while the first session waits for its acknowledgement. */
  lemma StuckAfterTokenUpdate(r: Register) returns (es: seq<Event>)
    requires IsFresh(r)
    ensures Schedule(r, es) && LoopLaw(Run(r, es)) && Stuck(Run(r, es))
    ensures 0 in Run(r, es).restarts && Run(r, es).restarts[0].generation == Run(r, es).stopGeneration
  {
    FreshLaws(r);
    RunSnoc(r, [], Started);
    var e1 := [] + [Started];
    assert Run(r, e1) == Register(true, false, 0, Initial, map[0 := Preparing], 1, map[], 0, Tally(1, 0, 0, 0, 0, 0));
    var e2 := Registers(r, e1, 0);
    RunSnoc(r, e2, TokenUpdated);
    es := e2 + [TokenUpdated];
    RunLaws(r, es);
    assert 0 in Run(r, es).loops && Run(r, es).loops[0].Disconnected?;
  }

  lemma IsAdmitted(r: Register, es: seq<Event>, l: LoopId) returns (all: seq<Event>)
    requires Schedule(r, es) && Run(r, es).loops == map[l := Preparing]
    ensures Schedule(r, all)
    ensures Run(r, all) == At(Call(Run(r, es), l), l, Recovering)
  {
    RunSnoc(r, es, Called(l));
    var e1 := es + [Called(l)];
    RunSnoc(r, e1, Accepted(l));
    all := e1 + [Accepted(l)];
  }

  /** A registration from its request to the wait for the connection. */
  lemma Registers(r: Register, es: seq<Event>, l: LoopId) returns (all: seq<Event>)
    requires Schedule(r, es) && !Run(r, es).cancelled && Run(r, es).loops == map[l := Preparing]
    ensures Schedule(r, all)
    ensures Run(r, all) == At(Call(Run(r, es), l), l, Connecting)
  {
    var e2 := IsAdmitted(r, es, l);
    RunSnoc(r, e2, RecoveryDone(l));
    var e3 := e2 + [RecoveryDone(l)];
    RunSnoc(r, e3, SyncDone(l));
    all := e3 + [SyncDone(l)];
  }

  lemma FirstSession(r: Register) returns (es: seq<Event>)
    requires IsFresh(r)
    ensures Schedule(r, es)
    ensures Run(r, es) == Register(false, false, 0, Initial, map[], 1, map[], 0, Tally(1, 0, 0, 0, 1, 0))
  {
    RunSnoc(r, [], Started);
    var e1 := [] + [Started];
    assert Run(r, e1) == Register(true, false, 0, Initial, map[0 := Preparing], 1, map[], 0, Tally(1, 0, 0, 0, 0, 0));
    var e2 := Registers(r, e1, 0);
    RunSnoc(r, e2, Connected(0));
    es := e2 + [Connected(0)];
  }

  lemma Renewed(r: Register, es: seq<Event>) returns (all: seq<Event>)
    requires Schedule(r, es)
    requires Run(r, es) == Register(false, false, 0, Initial, map[], 1, map[], 0, Tally(1, 0, 0, 0, 1, 0))
    ensures Schedule(r, all)
    ensures Run(r, all) == Register(true, false, 1, Initial, map[1 := Preparing], 2, map[], 1, Tally(1, 1, 0, 0, 1, 0))
  {
    RunSnoc(r, es, TokenUpdated);
    var e1 := es + [TokenUpdated];
    assert Run(r, e1)
        == Register(false, true, 1, Initial, map[], 1, map[0 := Restart(1, Some(0))], 1, Tally(1, 1, 0, 0, 1, 0));
    RunSnoc(r, e1, Fired(0));
    all := e1 + [Fired(0)];
  }

  /** A first session, a token update, and the second session waiting for its connection. */
  lemma SecondSession(r: Register) returns (es: seq<Event>)
    requires IsFresh(r)
    ensures Schedule(r, es)
    ensures Run(r, es) == Register(true, false, 1, Initial, map[1 := Connecting], 2, map[], 1, Tally(1, 1, 0, 0, 2, 0))
  {
    var e1 := FirstSession(r);
    var e2 := Renewed(r, e1);
    es := Registers(r, e2, 1);
  }

  /**
   * A run in which the causes do not pay: an eviction disconnects the second session, its acknowledgement was already
   * under way, and the restart that follows the eviction registers with the right to evict.
   */
  lemma LateAckEvictsUnpaid(r: Register) returns (es: seq<Event>)
    requires IsFresh(r)
    ensures Schedule(r, es) && Run(r, es).tally == Tally(1, 1, 0, 1, 3, 0)
    ensures Run(r, es).tally.initialCalls > Causes(Run(r, es).tally)
  {
    var e0 := SecondSession(r);
    RunSnoc(r, e0, Evicted);
    var e1 := e0 + [Evicted];
    assert Run(r, e1)
        == Register(true, true, 2, Standby, map[1 := Disconnected], 2, map[1 := Restart(2, Some(1))], 2,
          Tally(1, 1, 0, 0, 2, 0));
    RunSnoc(r, e1, LateAck(1));
    var e2 := e1 + [LateAck(1)];
    assert Run(r, e2)
        == Register(false, true, 2, Initial, map[], 2, map[1 := Restart(2, Some(1))], 2, Tally(1, 1, 0, 1, 2, 0));
    RunSnoc(r, e2, Fired(1));
    var e3 := e2 + [Fired(1)];
    assert Run(r, e3) == Register(true, false, 2, Initial, map[2 := Preparing], 3, map[], 2, Tally(1, 1, 0, 1, 2, 0));
    RunSnoc(r, e3, Called(2));
    es := e3 + [Called(2)];
  }

  /** No stop of any kind is undone: with no start, restart or cancellation ahead, a shut loop stays shut. */
  ghost predicate Shut(r: Register) {
    r.cancelled && !RestartPending(r) && r.tally.starts > 0
  }

  predicate AfterShutdown(e: Event) {
    !e.Started? && !e.TokenUpdated? && !e.Evicted?
  }

  /** Once shut, the agent starts no loop again: not through a pending restart, nor through its own loop. */
  lemma {:induction false} ShutStays(r: Register, e: Event)
    requires LoopLaw(r) && Shut(r) && Enabled(r, e) && AfterShutdown(e)
    ensures Shut(Step(r, e)) && Step(r, e).loopCount == r.loopCount
  {
    match e
    case Stopped => StopLaw(r);
    case Fired(restart) => FireLaw(r, restart);
    case Cancelled => CancelLaw(r);
    case Torn =>
    case _ => LoopStepShape(r, e);
  }
}
