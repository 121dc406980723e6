/**
 * Several replicas of one agent under the replica limit of the plan. The server is not part of the
 * repository; the rules below are the ones the comments of src/project-agent.ts state about it.
 */
module Admission {
  import opened Options
  import opened RegisterLoop
  import RetryStrategy

  type ReplicaId = nat

  /** `live` are the admitted replicas, oldest first; `limit` is None for a plan without a limit. */
  datatype Fleet = Fleet(replicas: seq<Register>, live: seq<ReplicaId>, limit: Option<nat>, evictions: nat)

  datatype FleetEvent = ReplicaEvent(replica: ReplicaId, event: Event) | SlotFreed(replica: ReplicaId)

  predicate HasRoom(s: Fleet) {
    s.limit.None? || |s.live| < s.limit.value
  }

  /** The server answers one register request: initial may evict the oldest, standby only enters a free slot. */
  function Admit(s: Fleet, i: ReplicaId, mode: AdmissionMode): Fleet {
    if i in s.live then s
    else if HasRoom(s) then s.(live := s.live + [i])
    else if mode.Initial? && s.live != [] then s.(live := s.live[1..] + [i], evictions := s.evictions + 1)
    else s
  }

  function ModeOf(phase: Phase): AdmissionMode {
    if phase.Registering? then phase.mode else Standby
  }

  function Without(live: seq<ReplicaId>, i: ReplicaId): (rest: seq<ReplicaId>)
    ensures |rest| <= |live|
    ensures forall j :: j in rest <==> j in live && j != i
  {
    if live == [] then [] else
    var rest := Without(live[1..], i);
    assert forall j :: j in live <==> j == live[0] || j in live[1..];
    if live[0] == i then rest else [live[0]] + rest
  }

  lemma {:induction false} WithoutDistinct(live: seq<ReplicaId>, i: ReplicaId)
    requires Distinct(live)
    ensures Distinct(Without(live, i))
  {
    if live != [] {
      WithoutDistinct(live[1..], i);
      var rest := Without(live[1..], i);
      forall k | 0 <= k < |rest| ensures rest[k] != live[0] {
        assert rest[k] in rest && rest[k] in live[1..];
      }
    }
  }

  predicate Distinct(live: seq<ReplicaId>) {
    forall j, k :: 0 <= j < k < |live| ==> live[j] != live[k]
  }

  predicate FleetEnabled(s: Fleet, e: FleetEvent) {
    e.ReplicaEvent? ==> e.replica < |s.replicas| && Enabled(s.replicas[e.replica], e.event)
  }

  function FleetStep(s: Fleet, e: FleetEvent): Fleet
    requires FleetEnabled(s, e)
  {
    match e
    case SlotFreed(i) => s.(live := Without(s.live, i))
    case ReplicaEvent(i, event) =>
      var moved := s.(replicas := s.replicas[i := Step(s.replicas[i], event)]);
      if event.Posted? then Admit(moved, i, ModeOf(s.replicas[i].loops[event.loop])) else moved
  }

  predicate FleetSchedule(s: Fleet, es: seq<FleetEvent>)
    decreases |es|
  {
    es == [] || (FleetEnabled(s, es[0]) && FleetSchedule(FleetStep(s, es[0]), es[1..]))
  }

  function FleetRun(s: Fleet, es: seq<FleetEvent>): Fleet
    requires FleetSchedule(s, es)
    decreases |es|
  {
    if es == [] then s else FleetRun(FleetStep(s, es[0]), es[1..])
  }

  // -------------------------------------------------------------- totals

  function Sum(ns: seq<nat>): nat {
    if ns == [] then 0 else ns[0] + Sum(ns[1..])
  }

  function Posts(replicas: seq<Register>): seq<nat> {
    seq(|replicas|, i requires 0 <= i < |replicas| => replicas[i].tally.initialPosts)
  }

  function ChargesOf(replicas: seq<Register>): seq<nat> {
    seq(|replicas|, i requires 0 <= i < |replicas| => Charges(replicas[i].tally))
  }

  function CausesOf(replicas: seq<Register>): seq<nat> {
    seq(|replicas|, i requires 0 <= i < |replicas| => Causes(replicas[i].tally))
  }

  lemma {:induction false} SumUpdate(ns: seq<nat>, i: nat, n: nat)
    requires i < |ns|
    ensures Sum(ns[i := n]) + ns[i] == Sum(ns) + n
  {
    if i == 0 {
      assert ns[0 := n][1..] == ns[1..];
    } else {
      assert ns[i := n][1..] == ns[1..][i - 1 := n];
      SumUpdate(ns[1..], i - 1, n);
    }
  }

  lemma {:induction false} SumBound(ns: seq<nat>, ms: seq<nat>, k: nat)
    requires |ns| == |ms| && forall i :: 0 <= i < |ns| ==> ns[i] <= k * ms[i]
    ensures Sum(ns) <= k * Sum(ms)
  {
    if ns != [] {
      SumBound(ns[1..], ms[1..], k);
      assert k * Sum(ms) == k * ms[0] + k * Sum(ms[1..]);
    }
  }

  // ----------------------------------------------------------------- law

  ghost predicate FleetLaw(s: Fleet) {
    && Distinct(s.live)
    && (s.limit.Some? ==> |s.live| <= s.limit.value)
    && ReplicaLaws(s.replicas)
    && s.evictions <= Sum(Posts(s.replicas))
  }

  /** One more initial request for an initial post, none otherwise. */
  lemma {:induction false} StepPostsAtMostOne(r: Register, e: Event)
    requires Enabled(r, e)
    ensures var before, after := r.tally.initialPosts, Step(r, e).tally.initialPosts;
            after == before + (if e.Posted? && ModeOf(r.loops[e.loop]).Initial? then 1 else 0)
  {
  }

  /** Only an initial request to a full plan, from a replica without a slot, evicts; a standby never does. */
  lemma {:induction false} EvictsExactlyWhen(s: Fleet, e: FleetEvent)
    requires FleetEnabled(s, e)
    ensures FleetStep(s, e).evictions != s.evictions <==>
            && e.ReplicaEvent? && e.event.Posted? && ModeOf(s.replicas[e.replica].loops[e.event.loop]).Initial?
            && e.replica !in s.live && !HasRoom(s) && s.live != []
    ensures FleetStep(s, e).evictions <= s.evictions + 1
  {
  }

  lemma {:induction false} StepTotal(s: Fleet, e: FleetEvent)
    requires FleetEnabled(s, e) && s.evictions <= Sum(Posts(s.replicas))
    ensures FleetStep(s, e).evictions <= Sum(Posts(FleetStep(s, e).replicas))
  {
    EvictsExactlyWhen(s, e);
    if e.ReplicaEvent? {
      var r := Step(s.replicas[e.replica], e.event);
      StepPostsAtMostOne(s.replicas[e.replica], e.event);
      SumUpdate(Posts(s.replicas), e.replica, r.tally.initialPosts);
      assert Posts(s.replicas[e.replica := r]) == Posts(s.replicas)[e.replica := r.tally.initialPosts];
    }
  }

  ghost predicate ReplicaLaws(replicas: seq<Register>) {
    forall i :: 0 <= i < |replicas| ==> LoopLaw(replicas[i]) && ChargeLaw(replicas[i])
  }

  lemma ReplicaStepLaws(replicas: seq<Register>, i: ReplicaId, e: Event)
    requires ReplicaLaws(replicas) && i < |replicas| && Enabled(replicas[i], e)
    ensures ReplicaLaws(replicas[i := Step(replicas[i], e)])
  {
    StepLoopLaw(replicas[i], e);
    StepChargeLaw(replicas[i], e);
  }

  lemma AdmitKeepsLimit(s: Fleet, i: ReplicaId, mode: AdmissionMode)
    requires Distinct(s.live) && (s.limit.Some? ==> |s.live| <= s.limit.value)
    ensures var t := Admit(s, i, mode);
            Distinct(t.live) && t.limit == s.limit && t.replicas == s.replicas
              && (t.limit.Some? ==> |t.live| <= t.limit.value)
  {
  }

  lemma {:induction false} FleetStepLaw(s: Fleet, e: FleetEvent)
    requires FleetLaw(s) && FleetEnabled(s, e)
    ensures FleetLaw(FleetStep(s, e))
  {
    StepTotal(s, e);
    if e.SlotFreed? {
      WithoutDistinct(s.live, e.replica);
    } else {
      var i, event := e.replica, e.event;
      ReplicaStepLaws(s.replicas, i, event);
      if event.Posted? {
        AdmitKeepsLimit(s.(replicas := s.replicas[i := Step(s.replicas[i], event)]), i,
          ModeOf(s.replicas[i].loops[event.loop]));
      }
    }
  }

  lemma {:induction false} FleetRunLaw(s: Fleet, es: seq<FleetEvent>)
    requires FleetLaw(s) && FleetSchedule(s, es)
    ensures FleetLaw(FleetRun(s, es)) && FleetRun(s, es).limit == s.limit
    ensures |FleetRun(s, es).replicas| == |s.replicas|
    decreases |es|
  {
    if es != [] {
      FleetStepLaw(s, es[0]);
      FleetRunLaw(FleetStep(s, es[0]), es[1..]);
    }
  }

  ghost predicate FreshFleet(s: Fleet) {
    s.live == [] && s.evictions == 0 && forall i :: 0 <= i < |s.replicas| ==> IsFresh(s.replicas[i])
  }

  lemma FreshFleetLaw(s: Fleet)
    requires FreshFleet(s)
    ensures FleetLaw(s)
  {
    forall i | 0 <= i < |s.replicas| ensures LoopLaw(s.replicas[i]) && ChargeLaw(s.replicas[i]) {
      FreshLaws(s.replicas[i]);
    }
  }

  /** The law speaks of the requests sent; what is paid for follows from the law of each replica. */
  lemma LawBoundsEvictions(s: Fleet)
    requires FleetLaw(s)
    ensures s.evictions <= RetryStrategy.API_MAX_RETRIES * Sum(ChargesOf(s.replicas))
  {
    var posts, charges := Posts(s.replicas), ChargesOf(s.replicas);
    forall i | 0 <= i < |posts| ensures posts[i] <= RetryStrategy.API_MAX_RETRIES * charges[i] {
      PostsArePaid(s.replicas[i]);
    }
    SumBound(posts, charges, RetryStrategy.API_MAX_RETRIES);
  }

  lemma PostsArePaid(r: Register)
    requires ChargeLaw(r)
    ensures r.tally.initialPosts <= RetryStrategy.API_MAX_RETRIES * Charges(r.tally)
  {
  }

  /**
   * With any number of replicas and any interleaving, the live replicas never exceed the limit, and all evictions
   * together are paid for by process starts, token updates, failed attempts and evictions undone.
   */
  lemma {:induction false} EvictionsAreBounded(s: Fleet, es: seq<FleetEvent>)
    requires FreshFleet(s) && FleetSchedule(s, es)
    ensures var t := FleetRun(s, es);
            && Distinct(t.live) && (s.limit.Some? ==> |t.live| <= s.limit.value)
            && t.evictions <= RetryStrategy.API_MAX_RETRIES * Sum(ChargesOf(t.replicas))
  {
    FreshFleetLaw(s);
    FleetRunLaw(s, es);
    LawBoundsEvictions(FleetRun(s, es));
  }

  /** No late acknowledgement of any replica undoes an eviction. */
  predicate FleetNothingUndone(s: Fleet, es: seq<FleetEvent>)
    requires FleetSchedule(s, es)
    decreases |es|
  {
    es == [] || (!FleetUndoes(s, es[0]) && FleetNothingUndone(FleetStep(s, es[0]), es[1..]))
  }

  predicate FleetUndoes(s: Fleet, e: FleetEvent)
    requires FleetEnabled(s, e)
  {
    e.ReplicaEvent? && Undoes(s.replicas[e.replica], e.event)
  }

  ghost predicate NoneUndone(replicas: seq<Register>) {
    forall i :: 0 <= i < |replicas| ==> replicas[i].tally.undone == 0
  }

  lemma {:induction false} NoneUndoneStep(s: Fleet, e: FleetEvent)
    requires FleetEnabled(s, e) && NoneUndone(s.replicas) && !FleetUndoes(s, e)
    ensures NoneUndone(FleetStep(s, e).replicas)
  {
    if e.ReplicaEvent? { UndoneCounted(s.replicas[e.replica], e.event); }
  }

  lemma {:induction false} NoneUndoneRun(s: Fleet, es: seq<FleetEvent>)
    requires FleetSchedule(s, es) && NoneUndone(s.replicas) && FleetNothingUndone(s, es)
    ensures NoneUndone(FleetRun(s, es).replicas)
    decreases |es|
  {
    if es != [] {
      NoneUndoneStep(s, es[0]);
      NoneUndoneRun(FleetStep(s, es[0]), es[1..]);
    }
  }

  lemma ChargesAreCauses(replicas: seq<Register>)
    requires NoneUndone(replicas)
    ensures ChargesOf(replicas) == CausesOf(replicas)
  {
  }

  lemma FreshHasNoneUndone(s: Fleet)
    requires FreshFleet(s)
    ensures NoneUndone(s.replicas)
  {
  }

  lemma LawBoundsByCauses(s: Fleet)
    requires FleetLaw(s) && NoneUndone(s.replicas)
    ensures s.evictions <= RetryStrategy.API_MAX_RETRIES * Sum(CausesOf(s.replicas))
  {
    LawBoundsEvictions(s);
    ChargesAreCauses(s.replicas);
  }

  /** While no late acknowledgement undoes an eviction, the causes alone bound the evictions. */
  lemma {:induction false} CausesBoundEvictions(s: Fleet, es: seq<FleetEvent>)
    requires FreshFleet(s) && FleetSchedule(s, es) && FleetNothingUndone(s, es)
    ensures FleetRun(s, es).evictions <= RetryStrategy.API_MAX_RETRIES * Sum(CausesOf(FleetRun(s, es).replicas))
  {
    FreshFleetLaw(s);
    FreshHasNoneUndone(s);
    FleetRunLaw(s, es);
    NoneUndoneRun(s, es);
    LawBoundsByCauses(FleetRun(s, es));
  }

  /**
   * Replicas cannot swap forever: while nothing new can be charged, evictions stay below what the past has paid for.
   */
  lemma NoEndlessSwap(s: Fleet, es: seq<FleetEvent>)
    requires FleetLaw(s) && FleetSchedule(s, es) && ChargesOf(FleetRun(s, es).replicas) == ChargesOf(s.replicas)
    ensures FleetRun(s, es).evictions <= RetryStrategy.API_MAX_RETRIES * Sum(ChargesOf(s.replicas))
  {
    FleetRunLaw(s, es);
    LawBoundsEvictions(FleetRun(s, es));
  }

  /**
   * Who holds a slot after a register request: everybody who did, except the oldest where room has to be made, and the
   * replica that asked if it did, if there is room, or if it may evict.
   */
  lemma AdmitsExactly(s: Fleet, e: FleetEvent, j: ReplicaId)
    requires FleetEnabled(s, e) && Distinct(s.live) && e.ReplicaEvent? && e.event.Posted?
    ensures var t, i, initial := FleetStep(s, e), e.replica, ModeOf(s.replicas[e.replica].loops[e.event.loop]).Initial?;
            var evicts := initial && i !in s.live && !HasRoom(s) && s.live != [];
            && (j == i ==> (j in t.live <==> j in s.live || HasRoom(s) || evicts))
            && (j != i ==> (j in t.live <==> j in s.live && !(evicts && j == s.live[0])))
  {
    var evicts := ModeOf(s.replicas[e.replica].loops[e.event.loop]).Initial? && e.replica !in s.live
                  && !HasRoom(s) && s.live != [];
    if evicts { assert s.live == [s.live[0]] + s.live[1..]; }
  }

  /** No other event of a replica gives or takes a slot; a slot that is freed is the one of its replica. */
  lemma OthersKeepTheSlots(s: Fleet, e: FleetEvent, j: ReplicaId)
    requires FleetEnabled(s, e) && !(e.ReplicaEvent? && e.event.Posted?)
    ensures j in FleetStep(s, e).live <==> j in s.live && !(e.SlotFreed? && j == e.replica)
  {
  }
}
