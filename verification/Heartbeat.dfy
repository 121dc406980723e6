/** The ping/pong liveness check of src/base-websocket.ts. */
module Heartbeat {
  const WS_PONG_MAX_MISSED: int := 3

  /** `Tick` is the interval timer firing while the socket is open. */
  datatype Event = Pong | Tick
  datatype Liveness = Liveness(alive: bool, missed: nat, firstTick: bool, terminated: bool)

  const STARTED := Liveness(false, 0, true, false)

  function Step(l: Liveness, maxMissed: int, e: Event): Liveness {
    match e
    case Pong => l.(alive := true)
    case Tick =>
      if l.terminated then l
      else if l.firstTick then l.(firstTick := false, alive := false)
      else if l.alive then l.(missed := 0, alive := false)
      else if l.missed + 1 >= maxMissed then l.(missed := l.missed + 1, terminated := true)
      else l.(missed := l.missed + 1)
  }

  function Run(maxMissed: int, es: seq<Event>): Liveness {
    if es == [] then STARTED else Step(Run(maxMissed, es[..|es| - 1]), maxMissed, es[|es| - 1])
  }

  /** How many intervals must stay silent; a limit of zero or less still takes one. */
  function Window(maxMissed: int): nat {
    if maxMissed <= 1 then 1 else maxMissed
  }

  /** From the tick at `a`, `m` whole intervals pass without a pong: `m + 1` ticks with nothing between them. */
  ghost predicate SilentFrom(es: seq<Event>, a: nat, m: nat) {
    a + m < |es| && forall k :: a <= k <= a + m ==> es[k] == Tick
  }

  ghost predicate SilentWindow(es: seq<Event>, m: nat) {
    exists a: nat :: SilentFrom(es, a, m)
  }

  /** The ticks since the last pong. */
  function TicksSincePong(es: seq<Event>): (n: nat)
    ensures n <= |es|
    ensures forall k :: |es| - n <= k < |es| ==> es[k] == Tick
    ensures n < |es| ==> es[|es| - n - 1] == Pong
  {
    if es == [] || es[|es| - 1].Pong? then 0 else
    var before := es[..|es| - 1];
    var n := TicksSincePong(before);
    assert forall k :: 0 <= k < |before| ==> es[k] == before[k];
    assert es[|es| - 1] == Tick;
    n + 1
  }

  lemma SilentWindowStep(es: seq<Event>, m: nat)
    requires es != []
    ensures SilentWindow(es, m) <==> SilentWindow(es[..|es| - 1], m) || TicksSincePong(es) > m
  {
    var before, n := es[..|es| - 1], |es|;
    if SilentWindow(es, m) {
      var a: nat :| SilentFrom(es, a, m);
      if a + m < n - 1 { assert SilentFrom(before, a, m); }
    }
    if SilentWindow(before, m) {
      var a: nat :| SilentFrom(before, a, m);
      assert SilentFrom(es, a, m) by {
        forall k | a <= k <= a + m ensures es[k] == Tick { assert before[k] == Tick; }
      }
    }
    if TicksSincePong(es) > m { assert SilentFrom(es, n - 1 - m, m); }
  }

  /** What the counters hold while the socket is alive. */
  ghost predicate CountersLaw(l: Liveness, es: seq<Event>) {
    !l.terminated ==>
      && (l.firstTick ==> l.missed == 0 && TicksSincePong(es) == 0)
      && (l.alive <==> es != [] && es[|es| - 1] == Pong)
      && (!l.alive && !l.firstTick ==> TicksSincePong(es) == l.missed + 1)
  }

  /**
   * The counter is a window rule: after any pongs and ticks, the socket has been terminated exactly when, between
   * some tick and the `Window`-th tick after it, no pong arrived. (Pongs before the first tick do not help.)
   */
  lemma {:induction false} TerminatedExactlyAfterSilentWindow(maxMissed: int, es: seq<Event>)
    ensures Run(maxMissed, es).terminated <==> SilentWindow(es, Window(maxMissed))
    ensures CountersLaw(Run(maxMissed, es), es)
  {
    if es != [] {
      TerminatedExactlyAfterSilentWindow(maxMissed, es[..|es| - 1]);
      SilentWindowStep(es, Window(maxMissed));
    }
  }

  /** A peer that answers within every interval is never cut off, whatever the limit. */
  lemma AnsweringPeerStaysConnected(maxMissed: int, es: seq<Event>)
    requires forall k :: 0 < k < |es| ==> es[k - 1] == Pong || es[k] == Pong
    ensures !Run(maxMissed, es).terminated
  {
    TerminatedExactlyAfterSilentWindow(maxMissed, es);
    forall a: nat ensures !SilentFrom(es, a, Window(maxMissed)) {
      if a + Window(maxMissed) < |es| { assert es[a + 1 - 1] == Pong || es[a + 1] == Pong; }
    }
  }

  /** The fields of a connection that the timer and the pong handler update. */
  class Connection {
    const maxMissed: int
    var heartbeatAlive: bool
    var heartbeatMissed: nat
    var firstTick: bool
    var open: bool
    var timer: bool

    constructor (maxMissed: int := WS_PONG_MAX_MISSED)
      ensures !open && !timer && this.maxMissed == maxMissed
    {
      this.maxMissed := maxMissed;
      heartbeatAlive, heartbeatMissed, firstTick, open, timer := false, 0, true, false, false;
    }

    ghost function State(): Liveness
      reads this
    {
      Liveness(heartbeatAlive, heartbeatMissed, firstTick, !open)
    }

    /** The socket opened. An interval of zero or less disables the check. */
    method StartHeartbeat(intervalMs: int)
      modifies this
      ensures open
      ensures intervalMs > 0 ==> timer && State() == STARTED
      ensures intervalMs <= 0 ==> timer == old(timer)
    {
      open := true;
      if intervalMs <= 0 { return; }
      StopHeartbeat();
      firstTick, timer := true, true;
    }

    method StopHeartbeat()
      modifies this`timer, this`heartbeatAlive, this`heartbeatMissed
      ensures !timer && !heartbeatAlive && heartbeatMissed == 0
    {
      timer, heartbeatAlive, heartbeatMissed := false, false, 0;
    }

    method OnPong()
      modifies this`heartbeatAlive
      ensures State() == Step(old(State()), maxMissed, Pong)
    {
      heartbeatAlive := true;
    }

    /** The interval callback; `terminate` leaves the socket no longer open. */
    method OnTick()
      modifies this`heartbeatAlive, this`heartbeatMissed, this`firstTick, this`open
      ensures State() == Step(old(State()), maxMissed, Tick)
    {
      if !open { return; }
      if firstTick {
        firstTick := false;
      } else if !heartbeatAlive {
        heartbeatMissed := heartbeatMissed + 1;
        if heartbeatMissed >= maxMissed {
          open := false;
          return;
        }
      } else {
        heartbeatMissed := 0;
      }
      heartbeatAlive := false;
    }
  }
}
