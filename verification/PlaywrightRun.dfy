/**
 * The promise and the kill-escalation timers of spawnPlaywright in src/browser/playwright-subprocess-executor.ts.
 * A timer fires no earlier than it is due and at most `lag` later; `lag` is zero on an idle event loop.
 */
module PlaywrightRun {
  import opened Options

  const SIGKILL_GRACE_MS: nat := 5000
  const FORCE_RESOLVE_AFTER_SIGKILL_MS: nat := 5000

  datatype Signal = SIGINT | SIGKILL
  datatype Sent = Sent(signal: Signal, at: nat, afterSettling: bool)

  /** How the promise settled. `ByKill` is the child's error event raised by sending that signal. */
  datatype Outcome = Exited(timedOut: bool) | Forced | Failed | ByKill(signal: Signal)

  datatype Child = Child(
    now: nat,
    timeout: Option<nat>, sigkill: Option<nat>, force: Option<nat>,
    timedOut: bool,
    outcome: Option<Outcome>,
    sent: seq<Sent>)

  /** The timer events say whether sending the signal raises the child's error event. */
  datatype Event =
    | Elapse(ms: nat)
    | TimeoutDue(killFails: bool)
    | SigkillDue(killFails: bool)
    | ForceDue
    | Closed
    | Errored

  function Spawned(timeoutMs: nat): Child {
    Child(0, Some(timeoutMs), None, None, false, None, [])
  }

  predicate Due(c: Child, timer: Option<nat>) {
    timer.Some? && timer.value <= c.now
  }

  predicate InTime(timer: Option<nat>, now: nat, lag: nat) {
    timer.Some? ==> now <= timer.value + lag
  }

  predicate Enabled(c: Child, lag: nat, e: Event) {
    match e
    case Elapse(ms) => InTime(c.timeout, c.now + ms, lag) && InTime(c.sigkill, c.now + ms, lag)
        && InTime(c.force, c.now + ms, lag)
    case TimeoutDue(_) => Due(c, c.timeout)
    case SigkillDue(_) => Due(c, c.sigkill)
    case ForceDue => Due(c, c.force)
    case _ => true
  }

  /** settleResolve and settleReject: the first call wins and clears every timer there is. */
  function Settle(c: Child, o: Outcome): Child {
    if c.outcome.Some? then c else c.(outcome := Some(o), timeout := None, sigkill := None, force := None)
  }

  function Kill(c: Child, signal: Signal, fails: bool): Child {
    var told := c.(sent := c.sent + [Sent(signal, c.now, c.outcome.Some?)]);
    if fails then Settle(told, ByKill(signal)) else told
  }

  function Step(c: Child, e: Event): Child {
    match e
    case Elapse(ms) => c.(now := c.now + ms)
    case TimeoutDue(fails) =>
      Kill(c.(timeout := None, timedOut := true), SIGINT, fails).(sigkill := Some(c.now + SIGKILL_GRACE_MS))
    case SigkillDue(fails) =>
      Kill(c.(sigkill := None), SIGKILL, fails).(force := Some(c.now + FORCE_RESOLVE_AFTER_SIGKILL_MS))
    case ForceDue => Settle(c.(force := None), Forced)
    case Closed => Settle(c, Exited(c.timedOut))
    case Errored => Settle(c, Failed)
  }

  ghost predicate Schedule(c: Child, lag: nat, es: seq<Event>)
    decreases |es|
  {
    es != [] ==> Enabled(c, lag, es[0]) && Schedule(Step(c, es[0]), lag, es[1..])
  }

  function Run(c: Child, es: seq<Event>): Child
    decreases |es|
  {
    if es == [] then c else Run(Step(c, es[0]), es[1..])
  }

  // ------------------------------------------------------------ what holds throughout

  /** The three timers are armed one after the other. */
  ghost predicate TimerLaw(c: Child, timeoutMs: nat, lag: nat) {
    && (c.timeout.Some? ==> !c.timedOut && c.outcome.None? && c.timeout.value == timeoutMs)
    && (c.sigkill.Some? ==> c.timedOut && c.timeout.None? && c.force.None?)
    && (c.force.Some? ==> c.timedOut && c.timeout.None?)
    && (c.outcome.None? ==> c.timeout.Some? || c.sigkill.Some? || c.force.Some?)
    && InTime(c.timeout, c.now, lag) && InTime(c.sigkill, c.now, lag) && InTime(c.force, c.now, lag)
    && (c.sigkill.Some? ==> timeoutMs + SIGKILL_GRACE_MS <= c.sigkill.value <= timeoutMs + lag + SIGKILL_GRACE_MS)
    && (c.force.Some? ==> c.force.value <= timeoutMs + SIGKILL_GRACE_MS + FORCE_RESOLVE_AFTER_SIGKILL_MS + 2 * lag)
  }

  /** At most SIGINT and then SIGKILL, each once, and not before its time. */
  ghost predicate SignalLaw(c: Child, timeoutMs: nat) {
    && |c.sent| <= 2
    && (c.timedOut <==> |c.sent| > 0)
    && (c.timeout.Some? ==> c.sent == [])
    && (|c.sent| > 0 ==> c.sent[0].signal == SIGINT && c.sent[0].at >= timeoutMs && !c.sent[0].afterSettling)
    && (|c.sent| > 1 ==>
         c.sent[1].signal == SIGKILL && c.sent[1].at >= c.sent[0].at + SIGKILL_GRACE_MS && c.sigkill.None?)
    && (c.sigkill.Some? ==> |c.sent| == 1 && c.sigkill.value == c.sent[0].at + SIGKILL_GRACE_MS)
    && (c.force.Some? ==> |c.sent| == 2)
  }

  /** A timer outlives the promise only where the signal that was to end the child settled it. */
  ghost predicate StrayLaw(c: Child) {
    && (c.sigkill.Some? && c.outcome.Some? ==> c.outcome == Some(ByKill(SIGINT)))
    && (c.outcome == Some(ByKill(SIGINT)) && |c.sent| == 1 ==> c.sigkill.Some?)
    && (|c.sent| > 1 ==> (c.sent[1].afterSettling <==> c.outcome == Some(ByKill(SIGINT))))
    && (c.outcome == Some(ByKill(SIGINT)) || c.outcome == Some(ByKill(SIGKILL)) ==> c.timedOut)
  }

  ghost predicate Law(c: Child, timeoutMs: nat, lag: nat) {
    TimerLaw(c, timeoutMs, lag) && SignalLaw(c, timeoutMs) && StrayLaw(c)
  }

  lemma StepLaw(c: Child, timeoutMs: nat, lag: nat, e: Event)
    requires Law(c, timeoutMs, lag) && Enabled(c, lag, e)
    ensures Law(Step(c, e), timeoutMs, lag)
  {
  }

  lemma {:induction false} RunLaw(c: Child, timeoutMs: nat, lag: nat, es: seq<Event>)
    requires Law(c, timeoutMs, lag) && Schedule(c, lag, es)
    ensures Law(Run(c, es), timeoutMs, lag)
    decreases |es|
  {
    if es != [] {
      StepLaw(c, timeoutMs, lag, es[0]);
      RunLaw(Step(c, es[0]), timeoutMs, lag, es[1..]);
    }
  }

  /** However close, error and timer events interleave, the promise has settled by the end of the escalation. */
  lemma SettledByTheDeadline(timeoutMs: nat, lag: nat, es: seq<Event>)
    requires Schedule(Spawned(timeoutMs), lag, es)
    ensures var c := Run(Spawned(timeoutMs), es);
            c.now > timeoutMs + SIGKILL_GRACE_MS + FORCE_RESOLVE_AFTER_SIGKILL_MS + 3 * lag ==> c.outcome.Some?
  {
    RunLaw(Spawned(timeoutMs), timeoutMs, lag, es);
  }

  /** Time is never stuck before that: it can pass, or the timer that holds it up is due. */
  lemma EscalationProceeds(timeoutMs: nat, lag: nat, es: seq<Event>)
    requires Schedule(Spawned(timeoutMs), lag, es)
    ensures var c := Run(Spawned(timeoutMs), es);
            c.outcome.None? ==>
              || Enabled(c, lag, Elapse(1)) || Enabled(c, lag, TimeoutDue(false))
                   || Enabled(c, lag, SigkillDue(false)) || Enabled(c, lag, ForceDue)
  {
    RunLaw(Spawned(timeoutMs), timeoutMs, lag, es);
  }

  /** Settled is settled: whatever comes later, the outcome stays. */
  lemma {:induction false} SettlesOnce(c: Child, es: seq<Event>)
    requires c.outcome.Some?
    ensures Run(c, es).outcome == c.outcome
    decreases |es|
  {
    if es != [] { SettlesOnce(Step(c, es[0]), es[1..]); }
  }

  /** SIGKILL only ever follows SIGINT, no sooner than the grace window, and SIGINT waits for the timeout. */
  lemma KillsInOrder(timeoutMs: nat, lag: nat, es: seq<Event>)
    requires Schedule(Spawned(timeoutMs), lag, es)
    ensures var sent := Run(Spawned(timeoutMs), es).sent;
            && (forall k :: 0 <= k < |sent| ==> sent[k].signal == if k == 0 then SIGINT else SIGKILL)
            && (|sent| > 0 ==> sent[0].at >= timeoutMs)
            && (|sent| > 1 ==> sent[1].at >= sent[0].at + SIGKILL_GRACE_MS)
            && |sent| <= 2
  {
    RunLaw(Spawned(timeoutMs), timeoutMs, lag, es);
  }

  /** SIGINT cannot be sent, and later the grace timer fires all the same. */
  ghost predicate EscalatesAfterFailedSigint(es: seq<Event>) {
    exists i, j :: 0 <= i < j < |es| && es[i] == TimeoutDue(true) && es[j].SigkillDue?
  }

  ghost predicate GraceFires(es: seq<Event>) {
    exists j :: 0 <= j < |es| && es[j].SigkillDue?
  }

  ghost predicate Stray(c: Child) {
    exists k :: 0 <= k < |c.sent| && c.sent[k].afterSettling
  }

  /** After a failed SIGINT, the grace timer is all that is left, and SIGKILL goes out when it fires. */
  lemma {:induction false} AfterFailedSigint(c: Child, timeoutMs: nat, lag: nat, es: seq<Event>)
    requires Law(c, timeoutMs, lag) && c.outcome == Some(ByKill(SIGINT)) && |c.sent| == 1 && Schedule(c, lag, es)
    ensures |Run(c, es).sent| == 2 <==> GraceFires(es)
    decreases |es|
  {
    if es != [] {
      var next := Step(c, es[0]);
      StepLaw(c, timeoutMs, lag, es[0]);
      GraceShift(es);
      if es[0].SigkillDue? {
        SentStays(next, timeoutMs, lag, es[1..]);
      } else {
        AfterFailedSigint(next, timeoutMs, lag, es[1..]);
      }
    }
  }

  lemma GraceShift(es: seq<Event>)
    requires es != []
    ensures GraceFires(es) <==> es[0].SigkillDue? || GraceFires(es[1..])
  {
    if GraceFires(es[1..]) {
      var j :| 0 <= j < |es| - 1 && es[1..][j].SigkillDue?;
      assert es[j + 1].SigkillDue?;
    }
    if GraceFires(es) {
      var j :| 0 <= j < |es| && es[j].SigkillDue?;
      if j > 0 { assert es[1..][j - 1].SigkillDue?; }
    }
  }

  /** Both signals are out: no more are sent. */
  lemma {:induction false} SentStays(c: Child, timeoutMs: nat, lag: nat, es: seq<Event>)
    requires Law(c, timeoutMs, lag) && |c.sent| == 2 && Schedule(c, lag, es)
    ensures Run(c, es).sent == c.sent
    decreases |es|
  {
    if es != [] {
      StepLaw(c, timeoutMs, lag, es[0]);
      SentStays(Step(c, es[0]), timeoutMs, lag, es[1..]);
    }
  }

  /** Past the timeout, or settled before it, SIGINT is not sent any more, so it settles nothing. */
  lemma {:induction false} NoFailedSigint(c: Child, timeoutMs: nat, lag: nat, es: seq<Event>)
    requires Law(c, timeoutMs, lag) && c.timeout.None? && c.outcome != Some(ByKill(SIGINT)) && Schedule(c, lag, es)
    ensures Run(c, es).outcome != Some(ByKill(SIGINT)) && TimeoutDue(true) !in es
    decreases |es|
  {
    if es != [] {
      StepLaw(c, timeoutMs, lag, es[0]);
      NoFailedSigint(Step(c, es[0]), timeoutMs, lag, es[1..]);
      assert es == [es[0]] + es[1..];
    }
  }

  lemma {:induction false} StrayRun(c: Child, timeoutMs: nat, lag: nat, es: seq<Event>)
    requires Law(c, timeoutMs, lag) && c.timeout.Some? && Schedule(c, lag, es)
    ensures Run(c, es).outcome == Some(ByKill(SIGINT)) && |Run(c, es).sent| == 2 <==> EscalatesAfterFailedSigint(es)
    decreases |es|
  {
    if es != [] {
      var next := Step(c, es[0]);
      StepLaw(c, timeoutMs, lag, es[0]);
      if es[0] == TimeoutDue(true) {
        AfterFailedSigint(next, timeoutMs, lag, es[1..]);
        SettlesOnce(next, es[1..]);
        EscalationBegins(es);
      } else {
        EscalationShift(es);
        if next.timeout.Some? {
          StrayRun(next, timeoutMs, lag, es[1..]);
        } else {
          NoFailedSigint(next, timeoutMs, lag, es[1..]);
          assert forall i :: 0 <= i < |es| - 1 ==> es[1..][i] in es[1..];
        }
      }
    }
  }

  lemma EscalationBegins(es: seq<Event>)
    requires es != [] && es[0] == TimeoutDue(true)
    ensures EscalatesAfterFailedSigint(es) <==> GraceFires(es[1..])
  {
    if GraceFires(es[1..]) {
      var j :| 0 <= j < |es| - 1 && es[1..][j].SigkillDue?;
      assert es[0] == TimeoutDue(true) && es[j + 1].SigkillDue?;
    }
    if EscalatesAfterFailedSigint(es) {
      var i, j :| 0 <= i < j < |es| && es[i] == TimeoutDue(true) && es[j].SigkillDue?;
      assert es[1..][j - 1].SigkillDue?;
    }
  }

  lemma EscalationShift(es: seq<Event>)
    requires es != [] && es[0] != TimeoutDue(true)
    ensures EscalatesAfterFailedSigint(es) <==> EscalatesAfterFailedSigint(es[1..])
  {
    if EscalatesAfterFailedSigint(es[1..]) {
      var i, j :| 0 <= i < j < |es| - 1 && es[1..][i] == TimeoutDue(true) && es[1..][j].SigkillDue?;
      assert es[i + 1] == TimeoutDue(true) && es[j + 1].SigkillDue?;
    }
    if EscalatesAfterFailedSigint(es) {
      var i, j :| 0 <= i < j < |es| && es[i] == TimeoutDue(true) && es[j].SigkillDue?;
      assert es[1..][i - 1] == TimeoutDue(true) && es[1..][j - 1].SigkillDue?;
    }
  }

  /**
   * A signal is sent after settling exactly when SIGINT itself raised the error that settled the promise and later the
   * grace timer fired: it was armed right after, so the settling could not clear it.
   */
  lemma SignalAfterSettlingExactlyWhen(timeoutMs: nat, lag: nat, es: seq<Event>)
    requires Schedule(Spawned(timeoutMs), lag, es)
    ensures Stray(Run(Spawned(timeoutMs), es)) <==> EscalatesAfterFailedSigint(es)
  {
    RunLaw(Spawned(timeoutMs), timeoutMs, lag, es);
    StrayRun(Spawned(timeoutMs), timeoutMs, lag, es);
    var c := Run(Spawned(timeoutMs), es);
    if c.outcome == Some(ByKill(SIGINT)) && |c.sent| == 2 { assert c.sent[1].afterSettling; }
  }

  /** A run that shows it: SIGINT cannot be delivered, and SIGKILL follows although the promise was rejected. */
  lemma SignalAfterSettling()
    ensures var es := [Elapse(1), TimeoutDue(true), Elapse(SIGKILL_GRACE_MS), SigkillDue(false)];
            && Schedule(Spawned(1), 0, es)
            && Run(Spawned(1), es).sent[..] == [Sent(SIGINT, 1, false), Sent(SIGKILL, 1 + SIGKILL_GRACE_MS, true)]
  {
    var e0, e1, e2, e3 := Elapse(1), TimeoutDue(true), Elapse(SIGKILL_GRACE_MS), SigkillDue(false);
    var es := [e0, e1, e2, e3];
    var c1 := Step(Spawned(1), e0);
    var c2 := Step(c1, e1);
    var c3 := Step(c2, e2);
    assert es[1..] == [e1, e2, e3] && es[1..][1..] == [e2, e3] && es[1..][1..][1..] == [e3];
    assert Schedule(c3, 0, [e3]) && Schedule(c2, 0, [e2, e3]) && Schedule(c1, 0, [e1, e2, e3]);
    assert Run(c3, [e3]) == Step(c3, e3) && Run(c2, [e2, e3]) == Step(c3, e3) && Run(c1, [e1, e2, e3]) == Step(c3, e3);
  }

  /** A child that exits is reported as timed out exactly when SIGINT was sent before. */
  lemma {:induction false} ExitTellsTheTruth(c: Child, timeoutMs: nat, lag: nat, es: seq<Event>)
    requires Law(c, timeoutMs, lag) && c.outcome.None? && Schedule(c, lag, es)
    ensures Run(c, es).outcome.Some? && Run(c, es).outcome.value.Exited? && Run(c, es).outcome.value.timedOut ==>
        |Run(c, es).sent| > 0
    ensures Run(c, es).outcome == Some(Exited(false)) ==> Run(c, es).sent == []
    decreases |es|
  {
    if es != [] {
      StepLaw(c, timeoutMs, lag, es[0]);
      var next := Step(c, es[0]);
      if next.outcome.None? {
        ExitTellsTheTruth(next, timeoutMs, lag, es[1..]);
      } else if next.outcome.value.Exited? {
        SettledStaysQuiet(next, lag, es[1..]);
      } else {
        SettlesOnce(next, es[1..]);
      }
    }
  }

  /** With no timer left, nothing is sent any more. */
  lemma {:induction false} SettledStaysQuiet(c: Child, lag: nat, es: seq<Event>)
    requires c.outcome.Some? && c.timeout.None? && c.sigkill.None? && c.force.None? && Schedule(c, lag, es)
    ensures Run(c, es).sent == c.sent && Run(c, es).outcome == c.outcome
    decreases |es|
  {
    if es != [] { SettledStaysQuiet(Step(c, es[0]), lag, es[1..]); }
  }

  // ------------------------------------------------------- what each event does

  /**
   * How a child that has not settled settles: an exit as one, timed out exactly when SIGINT was sent before; an error
   * event and the last timer as themselves; a signal only if sending it raised the error event.
   */
  lemma SettlesExactly(c: Child, timeoutMs: nat, lag: nat, e: Event)
    requires Law(c, timeoutMs, lag) && Enabled(c, lag, e) && c.outcome.None?
    ensures Step(c, e).outcome ==
            match e
            case Closed => Some(Exited(c.sent != []))
            case Errored => Some(Failed)
            case ForceDue => Some(Forced)
            case TimeoutDue(true) => Some(ByKill(SIGINT))
            case SigkillDue(true) => Some(ByKill(SIGKILL))
            case _ => None
  {
  }

  /** The timeout sends SIGINT and arms the grace timer, whether or not the child can be signalled. */
  lemma TimeoutActs(c: Child, timeoutMs: nat, lag: nat, fails: bool)
    requires Law(c, timeoutMs, lag) && Enabled(c, lag, TimeoutDue(fails))
    ensures var t := Step(c, TimeoutDue(fails));
            && t.sent == [Sent(SIGINT, c.now, false)] && t.timedOut && t.now == c.now
            && t.timeout == None && t.sigkill == Some(c.now + 5000) && t.force == None
  {
  }

  /** The grace timer sends SIGKILL and arms the last one. */
  lemma GraceActs(c: Child, timeoutMs: nat, lag: nat, fails: bool)
    requires Law(c, timeoutMs, lag) && Enabled(c, lag, SigkillDue(fails))
    ensures var t := Step(c, SigkillDue(fails));
            && |t.sent| == 2 && t.sent[0] == c.sent[0] && t.sent[1] == Sent(SIGKILL, c.now, c.outcome.Some?)
            && t.timedOut && t.now == c.now
            && t.timeout == None && t.sigkill == None && t.force == Some(c.now + 5000)
  {
  }

  /** An exit, an error event and the last timer send nothing, and leave no timer once the promise has settled. */
  lemma EndsQuietly(c: Child, timeoutMs: nat, lag: nat, e: Event)
    requires Law(c, timeoutMs, lag) && Enabled(c, lag, e) && (e.Closed? || e.Errored? || e.ForceDue?)
    ensures var t := Step(c, e);
            && t.sent == c.sent && t.now == c.now && t.timedOut == c.timedOut && t.outcome.Some?
            && (c.outcome.None? ==> t.timeout == None && t.sigkill == None && t.force == None)
  {
  }

  // -------------------------------------------------------------------- the closure

  /** The variables of one spawnPlaywright call and its event handlers. */
  class Spawn {
    var now: nat
    var timer: Option<nat>
    var sigkillTimer: Option<nat>
    var forceResolveTimer: Option<nat>
    var timedOut: bool
    var settled: bool
    var result: Option<Outcome>
    var sent: seq<Sent>

    ghost function State(): Child
      reads this
    {
      Child(now, timer, sigkillTimer, forceResolveTimer, timedOut, result, sent)
    }

    ghost predicate Valid()
      reads this
    {
      settled <==> result.Some?
    }

    constructor (timeoutMs: nat)
      ensures Valid() && State() == Spawned(timeoutMs)
    {
      now, timer, sigkillTimer, forceResolveTimer := 0, Some(timeoutMs), None, None;
      timedOut, settled, result, sent := false, false, None, [];
    }

    method SettleWith(o: Outcome)
      requires Valid()
      modifies this
      ensures Valid() && State() == Settle(old(State()), o)
    {
      if settled { return; }
      settled := true;
      timer, sigkillTimer, forceResolveTimer := None, None, None;
      result := Some(o);
    }

    method Send(signal: Signal, fails: bool)
      requires Valid()
      modifies this
      ensures Valid() && State() == Kill(old(State()), signal, fails)
    {
      sent := sent + [Sent(signal, now, settled)];
      if fails { SettleWith(ByKill(signal)); }
    }

    method OnTimeout(killFails: bool)
      requires Valid() && Enabled(State(), 0, TimeoutDue(killFails))
      modifies this
      ensures Valid() && State() == Step(old(State()), TimeoutDue(killFails))
    {
      timer := None;
      timedOut := true;
      Send(SIGINT, killFails);
      sigkillTimer := Some(now + SIGKILL_GRACE_MS);
    }

    method OnGraceOver(killFails: bool)
      requires Valid() && Enabled(State(), 0, SigkillDue(killFails))
      modifies this
      ensures Valid() && State() == Step(old(State()), SigkillDue(killFails))
    {
      sigkillTimer := None;
      Send(SIGKILL, killFails);
      forceResolveTimer := Some(now + FORCE_RESOLVE_AFTER_SIGKILL_MS);
    }

    method OnForceResolve()
      requires Valid() && Enabled(State(), 0, ForceDue)
      modifies this
      ensures Valid() && State() == Step(old(State()), ForceDue)
    {
      forceResolveTimer := None;
      SettleWith(Forced);
    }

    method OnClose()
      requires Valid()
      modifies this
      ensures Valid() && State() == Step(old(State()), Closed)
    {
      if timedOut {
        SettleWith(Exited(true));
        return;
      }
      SettleWith(Exited(false));
    }

    method OnError()
      requires Valid()
      modifies this
      ensures Valid() && State() == Step(old(State()), Errored)
    {
      SettleWith(Failed);
    }
  }
}
