/** The time budget of a graceful shutdown: waitForDrain in src/project-agent.ts and the constants it lives under. */
module ShutdownTiming {
  import opened CommandTransport

  const SHUTDOWN_DRAIN_POLL_INTERVAL_MS: nat := 250
  const AGENT_RELEASE_REQUEST_TIMEOUT_MS: nat := 3_000
  const SENTRY_FLUSH_TIMEOUT_MS: nat := 2_000
  const SHUTDOWN_GRACE_PERIOD_MARGIN_SECONDS: nat := 20

  function GracePeriodSeconds(drainTimeoutMs: nat): nat {
    (drainTimeoutMs + 999) / 1000 + SHUTDOWN_GRACE_PERIOD_MARGIN_SECONDS
  }

  /** CHILD_PROCESS_STOP_TIMEOUT_MS, as derived from a drain timeout. */
  function ChildProcessStopTimeoutMs(drainTimeoutMs: nat): nat {
    GracePeriodSeconds(drainTimeoutMs) * 1000 - 10_000
  }

  /** What one look at the clock and at the in-flight commands finds. */
  datatype Look = Look(now: nat, blockers: set<CommandId>)

  /** A wait ends at most `lag` after its poll interval, and the clock gets past the deadline in the end. */
  ghost predicate Clock(looks: seq<Look>, timeoutMs: nat, lag: nat) {
    && looks != []
    && (forall k :: 0 <= k < |looks| - 1 ==>
          looks[k].now <= looks[k + 1].now <= looks[k].now + SHUTDOWN_DRAIN_POLL_INTERVAL_MS + lag)
    && looks[|looks| - 1].now >= looks[0].now + timeoutMs
  }

  method WaitForDrain(looks: seq<Look>, timeoutMs: nat, ghost lag: nat)
    returns (drained: bool, remaining: set<CommandId>, last: nat)
    requires Clock(looks, timeoutMs, lag)
    ensures last < |looks| && remaining == looks[last].blockers && (drained <==> remaining == {})
    ensures forall k :: 0 <= k < last ==> looks[k].blockers != {} && looks[k].now < looks[0].now + timeoutMs
    ensures drained || looks[last].now >= looks[0].now + timeoutMs
    ensures looks[last].now < looks[0].now + timeoutMs + SHUTDOWN_DRAIN_POLL_INTERVAL_MS + lag || last == 0
  {
    var deadline := looks[0].now + timeoutMs;
    last := 0;
    while looks[last].blockers != {} && looks[last].now < deadline
      invariant last < |looks|
      invariant forall k :: 0 <= k < last ==> looks[k].blockers != {} && looks[k].now < deadline
      invariant last == 0 || looks[last].now < deadline + SHUTDOWN_DRAIN_POLL_INTERVAL_MS + lag
      decreases |looks| - last
    {
      last := last + 1;
    }
    remaining := looks[last].blockers;
    drained := remaining == {};
  }

  /** The worst case of a graceful exit, when the last wait of the drain is `lag` late. */
  function GracefulExitMs(drainTimeoutMs: nat, lag: nat): nat {
    drainTimeoutMs + SHUTDOWN_DRAIN_POLL_INTERVAL_MS + lag + AGENT_RELEASE_REQUEST_TIMEOUT_MS + SENTRY_FLUSH_TIMEOUT_MS
  }

  /**
   * For every drain timeout, drain, last poll, release and Sentry flush end before the parent kills the child if no
   * wait is 4 750 ms late or more; for a timeout of whole seconds, exactly then.
   */
  lemma GracefulExitFits(drainTimeoutMs: nat, lag: nat)
    ensures lag < 4_750 ==> GracefulExitMs(drainTimeoutMs, lag) < ChildProcessStopTimeoutMs(drainTimeoutMs)
    ensures drainTimeoutMs % 1000 == 0 ==>
              (GracefulExitMs(drainTimeoutMs, lag) < ChildProcessStopTimeoutMs(drainTimeoutMs) <==> lag < 4_750)
    ensures ChildProcessStopTimeoutMs(drainTimeoutMs) + 10_000 == GracePeriodSeconds(drainTimeoutMs) * 1000
    ensures drainTimeoutMs <= (GracePeriodSeconds(drainTimeoutMs) - 20) * 1000 < drainTimeoutMs + 1000
    ensures GracePeriodSeconds(300_000) == 320 && ChildProcessStopTimeoutMs(300_000) == 310_000
  {
    assert drainTimeoutMs <= (drainTimeoutMs + 999) / 1000 * 1000;
  }
}
