/**
 * applyChain in src/shared-file-mounts.ts: a call runs after the promise the variable holds has settled, with success
 * or failure, and leaves its own promise there. A run is a list of atomic steps on the machine, cut short by a failure.
 */
module ApplyChain {
  import opened Options

  datatype Progress = Waiting | Running(done: nat) | Settled(done: nat)

  /**
   * `runs[i]` are the steps of the i-th call, `progress[i]` how far it has come, and `after[i]` is the call whose
   * promise it waits for. `tail` is the variable applyChain: the call whose promise it holds, if any.
   */
  datatype Chain<!W> = Chain(
    runs: seq<seq<W -> W>>, progress: seq<Progress>, after: seq<Option<nat>>, tail: Option<nat>, machine: W)

  datatype Event<!W> = Called(steps: seq<W -> W>) | Started(call: nat) | Stepped(call: nat) | Ended(call: nat)

  ghost predicate WellFormed<W>(s: Chain<W>) {
    && |s.runs| == |s.progress| == |s.after|
    && (s.tail.Some? ==> s.tail.value < |s.runs|)
    && (forall i :: 0 <= i < |s.runs| && s.after[i].Some? ==> s.after[i].value < |s.runs|)
    && forall i :: 0 <= i < |s.runs| ==> s.progress[i].Waiting? || s.progress[i].done <= |s.runs[i]|
  }

  /** A call starts once the promise it waits for has settled; it may end early, by failing. */
  ghost predicate Enabled<W>(s: Chain<W>, e: Event<W>)
    requires WellFormed(s)
  {
    match e
    case Called(_) => true
    case Started(i) => i < |s.runs| && s.progress[i].Waiting?
        && (s.after[i].Some? ==> s.progress[s.after[i].value].Settled?)
    case Stepped(i) => i < |s.runs| && s.progress[i].Running? && s.progress[i].done < |s.runs[i]|
    case Ended(i) => i < |s.runs| && s.progress[i].Running?
  }

  ghost function Step<W>(s: Chain<W>, e: Event<W>): (t: Chain<W>)
    requires WellFormed(s) && Enabled(s, e)
    ensures WellFormed(t)
  {
    match e
    case Called(steps) =>
      s.(runs := s.runs + [steps], progress := s.progress + [Waiting], after := s.after + [s.tail],
         tail := Some(|s.runs|))
    case Started(i) => s.(progress := s.progress[i := Running(0)])
    case Stepped(i) =>
      s.(progress := s.progress[i := Running(s.progress[i].done + 1)],
         machine := s.runs[i][s.progress[i].done](s.machine))
    case Ended(i) => s.(progress := s.progress[i := Settled(s.progress[i].done)])
  }

  ghost predicate Schedule<W>(s: Chain<W>, es: seq<Event<W>>)
    requires WellFormed(s)
    decreases |es|
  {
    es == [] || (Enabled(s, es[0]) && Schedule(Step(s, es[0]), es[1..]))
  }

  ghost function Run<W>(s: Chain<W>, es: seq<Event<W>>): (t: Chain<W>)
    requires WellFormed(s) && Schedule(s, es)
    ensures WellFormed(t)
    decreases |es|
  {
    if es == [] then s else Run(Step(s, es[0]), es[1..])
  }

  // ----------------------------------------------- the sequential meaning

  function Apply<W>(steps: seq<W -> W>, machine: W): W {
    if steps == [] then machine else steps[|steps| - 1](Apply(steps[..|steps| - 1], machine))
  }

  function StepsTaken(p: Progress): nat {
    if p.Waiting? then 0 else p.done
  }

  /** One call after the other, in the order of the calls, each for the steps it took. */
  ghost function InCallOrder<W>(runs: seq<seq<W -> W>>, progress: seq<Progress>, first: W): W
    requires |runs| == |progress| && forall i :: 0 <= i < |runs| ==> StepsTaken(progress[i]) <= |runs[i]|
  {
    if runs == [] then first else
    var k := |runs| - 1;
    Apply(runs[k][..StepsTaken(progress[k])], InCallOrder(runs[..k], progress[..k], first))
  }

  /** Settled calls first, then at most one running, then the waiting ones. */
  ghost predicate OneAtATime<W>(s: Chain<W>) {
    forall i, j :: 0 <= i < j < |s.progress| && !s.progress[j].Waiting? ==> s.progress[i].Settled?
  }

  /** The promises form one chain: every call waits for the one before it, and the variable holds the last. */
  ghost predicate Linked<W>(s: Chain<W>)
    requires WellFormed(s)
  {
    && (forall i :: 0 <= i < |s.runs| ==> s.after[i] == if i == 0 then None else Some((i - 1) as nat))
    && s.tail == if s.runs == [] then None else Some(|s.runs| - 1)
  }

  ghost predicate Serial<W>(s: Chain<W>, first: W)
    requires WellFormed(s)
  {
    Linked(s) && OneAtATime(s) && s.machine == InCallOrder(s.runs, s.progress, first)
  }

  /** Calls that took no step are invisible. */
  lemma {:induction false} WaitingAreInvisible<W>(runs: seq<seq<W -> W>>, progress: seq<Progress>, first: W, n: nat)
    requires |runs| == |progress| && n <= |runs|
    requires forall i :: 0 <= i < |runs| ==> StepsTaken(progress[i]) <= |runs[i]|
    requires forall i :: n <= i < |runs| ==> StepsTaken(progress[i]) == 0
    ensures InCallOrder(runs, progress, first) == InCallOrder(runs[..n], progress[..n], first)
  {
    if n < |runs| {
      var k := |runs| - 1;
      WaitingAreInvisible(runs[..k], progress[..k], first, n);
      assert runs[..k][..n] == runs[..n] && progress[..k][..n] == progress[..n];
      assert runs[k][..0] == [];
    } else {
      assert runs[..n] == runs && progress[..n] == progress;
    }
  }

  /** The meaning depends on the progress of a call only through the steps it took. */
  lemma {:induction false} OnlyStepsMatter<W>(runs: seq<seq<W -> W>>, p: seq<Progress>, q: seq<Progress>, first: W)
    requires |runs| == |p| == |q| && forall i :: 0 <= i < |runs| ==> StepsTaken(p[i]) == StepsTaken(q[i]) <= |runs[i]|
    ensures InCallOrder(runs, p, first) == InCallOrder(runs, q, first)
  {
    if runs != [] {
      OnlyStepsMatter(runs[..|runs| - 1], p[..|runs| - 1], q[..|runs| - 1], first);
    }
  }

  lemma StepIsSerial<W>(s: Chain<W>, i: nat, first: W)
    requires WellFormed(s) && Serial(s, first) && Enabled(s, Stepped(i))
    ensures Serial(Step(s, Stepped(i)), first)
  {
    var t := Step(s, Stepped(i));
    var k := s.progress[i].done;
    WaitingAreInvisible(s.runs, s.progress, first, i + 1);
    WaitingAreInvisible(t.runs, t.progress, first, i + 1);
    assert s.runs[..i + 1][..i] == s.runs[..i]
        && s.progress[..i + 1][..i] == s.progress[..i] == t.progress[..i + 1][..i];
    assert s.runs[i][..k + 1][..k] == s.runs[i][..k];
  }

  lemma CalledIsSerial<W>(s: Chain<W>, steps: seq<W -> W>, first: W)
    requires WellFormed(s) && Serial(s, first)
    ensures Serial(Step(s, Called(steps)), first)
  {
    var t := Step(s, Called(steps));
    WaitingAreInvisible(t.runs, t.progress, first, |s.runs|);
    assert t.runs[..|s.runs|] == s.runs && t.progress[..|s.runs|] == s.progress;
  }

  lemma StartedIsSerial<W>(s: Chain<W>, i: nat, first: W)
    requires WellFormed(s) && Serial(s, first) && Enabled(s, Started(i))
    ensures Serial(Step(s, Started(i)), first)
  {
    OnlyStepsMatter(s.runs, s.progress, Step(s, Started(i)).progress, first);
    if i > 0 { assert s.progress[i - 1].Settled?; }
  }

  lemma EndedIsSerial<W>(s: Chain<W>, i: nat, first: W)
    requires WellFormed(s) && Serial(s, first) && Enabled(s, Ended(i))
    ensures Serial(Step(s, Ended(i)), first)
  {
    OnlyStepsMatter(s.runs, s.progress, Step(s, Ended(i)).progress, first);
  }

  lemma {:induction false} EventIsSerial<W>(s: Chain<W>, e: Event<W>, first: W)
    requires WellFormed(s) && Serial(s, first) && Enabled(s, e)
    ensures Serial(Step(s, e), first)
  {
    match e
    case Called(steps) => CalledIsSerial(s, steps, first);
    case Started(i) => StartedIsSerial(s, i, first);
    case Stepped(i) => StepIsSerial(s, i, first);
    case Ended(i) => EndedIsSerial(s, i, first);
  }

  /** Before the first call nothing is in progress, and the chain is empty. */
  lemma NoCallsYet<W>(first: W)
    ensures var s := Chain([], [], [], None, first); WellFormed(s) && Serial(s, first)
  {
  }

  /**
   * However calls overlap and whichever of them fail, at most one run is in progress and the machine is what running
   * them one after the other, in the order of the calls, makes of it.
   */
  lemma {:induction false} OverlappingCallsAreSerial<W>(s: Chain<W>, es: seq<Event<W>>, first: W)
    requires WellFormed(s) && Serial(s, first) && Schedule(s, es)
    ensures Serial(Run(s, es), first)
    decreases |es|
  {
    if es != [] {
      EventIsSerial(s, es[0], first);
      OverlappingCallsAreSerial(Step(s, es[0]), es[1..], first);
    }
  }

  /** A failed call never blocks the next one. */
  lemma NextCanStart<W>(s: Chain<W>, i: nat)
    requires WellFormed(s) && Linked(s) && OneAtATime(s) && i < |s.runs| && s.progress[i].Waiting?
    requires forall j :: 0 <= j < i ==> !s.progress[j].Waiting?
    ensures Enabled(s, Started(i)) || (i > 0 && Enabled(s, Ended(i - 1)) && Enabled(Step(s, Ended(i - 1)), Started(i)))
  {
  }
}
