/** The persistent-failure escalation of src/appsync-subscriber.ts. */
module ConnectEscalation {
  const APPSYNC_CONNECT_FAILURE_ESCALATION_THRESHOLD: nat := 5

  datatype Event = Ack | Close
  datatype Escalation = Escalation(acked: bool, failures: nat, notified: bool)

  const FRESH := Escalation(false, 0, false)

  /** The new state, and whether the callback fires. */
  function Step(s: Escalation, e: Event): (Escalation, bool) {
    match e
    case Ack => (Escalation(true, 0, false), false)
    case Close =>
      if s.acked then (s.(acked := false), false)
      else
        var fires := s.failures + 1 >= APPSYNC_CONNECT_FAILURE_ESCALATION_THRESHOLD && !s.notified;
        (Escalation(false, s.failures + 1, s.notified || fires), fires)
  }

  function Run(es: seq<Event>): Escalation {
    if es == [] then FRESH else Step(Run(es[..|es| - 1]), es[|es| - 1]).0
  }

  /** How often the callback has fired. */
  function Fired(es: seq<Event>): nat {
    if es == [] then 0 else
    Fired(es[..|es| - 1]) + if Step(Run(es[..|es| - 1]), es[|es| - 1]).1 then 1 else 0
  }

  /** The lengths of the runs of closes that the acknowledgements cut the events into; the first one precedes any. */
  function Streaks(es: seq<Event>): (r: seq<nat>)
    ensures r != []
  {
    if es == [] then [0] else
    var before := Streaks(es[..|es| - 1]);
    match es[|es| - 1]
    case Ack => before + [0]
    case Close => before[|before| - 1 := before[|before| - 1] + 1]
  }

  /**
   * The attempts of a streak that never got an acknowledgement: after one, the first close ends a working connection.
   */
  function Failures(streaks: seq<nat>, i: nat): nat
    requires i < |streaks|
  {
    if i > 0 && streaks[i] > 0 then streaks[i] - 1 else streaks[i]
  }

  /** How many streaks reach the threshold, among the first `n`. */
  function Reaching(streaks: seq<nat>, n: nat): nat
    requires n <= |streaks|
  {
    if n == 0 then 0 else
    Reaching(streaks, n - 1) + if Failures(streaks, n - 1) >= APPSYNC_CONNECT_FAILURE_ESCALATION_THRESHOLD then 1 else 0
  }

  lemma {:induction false} ReachingIsLocal(a: seq<nat>, b: seq<nat>, n: nat)
    requires n <= |a| && n <= |b| && a[..n] == b[..n]
    ensures Reaching(a, n) == Reaching(b, n)
  {
    if n > 0 {
      assert a[..n - 1] == a[..n][..n - 1] && b[..n - 1] == b[..n][..n - 1];
      assert a[n - 1] == a[..n][n - 1] && b[n - 1] == b[..n][n - 1];
      ReachingIsLocal(a, b, n - 1);
    }
  }

  /** What the fields hold: the unacknowledged attempts of the streak under way, and whether it was reported. */
  ghost predicate FieldsLaw(es: seq<Event>) {
    var s, streaks := Run(es), Streaks(es);
    var k := |streaks| - 1;
    && s.failures == Failures(streaks, k)
    && (s.acked <==> k > 0 && streaks[k] == 0)
    && (s.notified <==> s.failures >= APPSYNC_CONNECT_FAILURE_ESCALATION_THRESHOLD)
  }

  /** The callback fires exactly once for each maximal acknowledgement-free streak that reaches the threshold. */
  lemma {:induction false} FiresOncePerStreak(es: seq<Event>)
    ensures FieldsLaw(es)
    ensures Fired(es) == Reaching(Streaks(es), |Streaks(es)|)
  {
    if es != [] {
      var before := es[..|es| - 1];
      FiresOncePerStreak(before);
      var was, now := Streaks(before), Streaks(es);
      var k := |was| - 1;
      ReachingIsLocal(was, now, if es[|es| - 1] == Ack then k + 1 else k);
    }
  }

  /** The callback fires at the very close that completes the threshold. */
  lemma FiresAtTheThreshold(es: seq<Event>)
    requires es != [] && es[|es| - 1] == Close
    ensures var streaks := Streaks(es);
            Fired(es) > Fired(es[..|es| - 1]) <==>
            Failures(streaks, |streaks| - 1) == APPSYNC_CONNECT_FAILURE_ESCALATION_THRESHOLD
  {
    FiresOncePerStreak(es[..|es| - 1]);
    FiresOncePerStreak(es);
  }

  class AppSyncSubscriber {
    var ackedThisConnection: bool
    var consecutiveConnectFailures: nat
    var persistentFailureNotified: bool

    constructor ()
      ensures State() == FRESH
    {
      ackedThisConnection, consecutiveConnectFailures, persistentFailureNotified := false, 0, false;
    }

    ghost function State(): Escalation
      reads this
    {
      Escalation(ackedThisConnection, consecutiveConnectFailures, persistentFailureNotified)
    }

    method OnConnectionAck()
      modifies this
      ensures State() == Step(old(State()), Ack).0
    {
      ackedThisConnection := true;
      consecutiveConnectFailures := 0;
      persistentFailureNotified := false;
    }

    /** `fires` is the call of the persistent-failure callback. */
    method OnWebSocketClose() returns (fires: bool)
      modifies this
      ensures (State(), fires) == Step(old(State()), Close)
    {
      fires := false;
      if !ackedThisConnection {
        consecutiveConnectFailures := consecutiveConnectFailures + 1;
        if consecutiveConnectFailures >= APPSYNC_CONNECT_FAILURE_ESCALATION_THRESHOLD && !persistentFailureNotified {
          fires := true;
          persistentFailureNotified := true;
        }
      }
      ackedThisConnection := false;
    }
  }
}
