/**
 * The transport state as the source holds it: an object that the segments of `processCommand`, of the
 * pending-result store and of the API client update in place. Each method is one segment between two
 * awaits and is proved to be the step of CommandTransport with that name.
 */
module AgentTransport {
  import opened Options
  import opened CommandTransport

  /** The stale files among `seen` are gone, except the stuck ones; the rest is as it was. */
  ghost predicate Pruned(files: map<CommandId, Saved>, left: map<CommandId, Saved>, seen: seq<CommandId>, now: nat,
      stuck: set<CommandId>) {
    && (forall c :: c in left <==> c in files && !(c in seen && Stale(files[c], now) && c !in stuck))
    && (forall c :: c in left ==> left[c] == files[c])
  }

  /** One more file seen: removed when stale, kept otherwise. */
  lemma PrunedMore(files: map<CommandId, Saved>, left: map<CommandId, Saved>, order: seq<CommandId>, i: nat, now: nat,
      stuck: set<CommandId>)
    requires i < |order| && order[i] in files && Pruned(files, left, order[..i], now, stuck)
    ensures var c := order[i];
            Pruned(files, if Stale(files[c], now) && c !in stuck then left - {c} else left, order[..i + 1], now, stuck)
  {
    assert order[..i + 1] == order[..i] + [order[i]];
  }

  lemma NotYetSeen(order: seq<CommandId>, i: nat)
    requires i < |order| && forall j, k :: 0 <= j < k < |order| ==> order[j] != order[k]
    ensures order[i] !in order[..i]
  {
  }

  /** What the listing's next file adds to a pass. */
  function Taken(s: Transport, minAgeMs: nat, c: CommandId): seq<Saved>
    requires c in s.disk
  {
    if Stale(s.disk[c], s.now) || !OldEnough(s.disk[c], s.now, minAgeMs) then [] else [s.disk[c]]
  }

  lemma {:induction false} LoadedMore(s: Transport, minAgeMs: nat, order: seq<CommandId>, i: nat)
    requires i < |order| && forall c <- order :: c in s.disk
    ensures order[i] in s.disk
    ensures Loaded(s, minAgeMs, order[..i + 1]) == Loaded(s, minAgeMs, order[..i]) + Taken(s, minAgeMs, order[i])
  {
    assert order[i] in order;
    LoadedSnoc(s, minAgeMs, order[..i], order[i]);
    assert order[..i + 1] == order[..i] + [order[i]];
  }

  lemma {:induction false} LoadedSnoc(s: Transport, minAgeMs: nat, order: seq<CommandId>, c: CommandId)
    requires c in s.disk && forall d <- order :: d in s.disk
    ensures Loaded(s, minAgeMs, order + [c]) == Loaded(s, minAgeMs, order) + Taken(s, minAgeMs, c)
  {
    if order != [] {
      assert (order + [c])[1..] == order[1..] + [c];
      LoadedSnoc(s, minAgeMs, order[1..], c);
    }
  }

  /** One turn of the loop below. */
  lemma FileSeen(s: Transport, left: map<CommandId, Saved>, results: seq<Saved>, minAgeMs: nat, order: seq<CommandId>,
      i: nat, stuck: set<CommandId>)
    requires i < |order| && Listing(s, order)
    requires Pruned(s.disk, left, order[..i], s.now, stuck) && results == Loaded(s, minAgeMs, order[..i])
    ensures var c := order[i];
            && c in left && left[c] == s.disk[c]
            && Pruned(s.disk, if Stale(s.disk[c], s.now) && c !in stuck then left - {c} else left,
                      order[..i + 1], s.now, stuck)
            && Loaded(s, minAgeMs, order[..i + 1])
               == if Stale(s.disk[c], s.now) || !OldEnough(s.disk[c], s.now, minAgeMs) then results
                 else results + [s.disk[c]]
  {
    assert order[i] in order;
    NotYetSeen(order, i);
    PrunedMore(s.disk, left, order, i, s.now, stuck);
    LoadedMore(s, minAgeMs, order, i);
  }

  /** loadPendingResults: stale files go, the others that are old enough are handed to the pass. */
  method LoadPendingResults(ghost s: Transport, files: map<CommandId, Saved>, now: nat, minAgeMs: nat,
      order: seq<CommandId>, stuck: set<CommandId>)
    returns (results: seq<Saved>, left: map<CommandId, Saved>)
    requires s.disk == files && s.now == now && Listing(s, order)
    ensures results == Loaded(s, minAgeMs, order)
    ensures Pruned(files, left, order, now, stuck)
  {
    results, left := [], files;
    for i := 0 to |order|
      invariant Pruned(files, left, order[..i], now, stuck)
      invariant results == Loaded(s, minAgeMs, order[..i])
    {
      FileSeen(s, left, results, minAgeMs, order, i, stuck);
      var id, file := order[i], left[order[i]];
      if Stale(file, now) {
        if id !in stuck { left := left - {id}; }
      } else if OldEnough(file, now, minAgeMs) {
        results := results + [file];
      }
    }
    assert order[..|order|] == order;
  }

  class TransportState {
    var draining: bool
    var inFlightCommands: set<CommandId>
    var assignmentGenerations: map<CommandId, nat>
    /** The directory of pending results. */
    var pendingDir: map<CommandId, Saved>
    /** The suspended `processCommand` calls and the passes over the pending directory. */
    var calls: map<FrameId, Frame>
    var passes: map<PassId, seq<Saved>>
    /** Those of the passes that are not of this process, but of others that share the directory. */
    var foreign: set<PassId>
    var now: nat
    var nextSave: nat

    ghost function Snapshot(): Transport
      reads this
    {
      Transport(draining, inFlightCommands, assignmentGenerations, pendingDir, calls, passes, foreign, now, nextSave)
    }

    /** A new process finds the files its predecessor left. */
    constructor (files: map<CommandId, Saved>, startedAt: nat, writes: nat)
      requires forall c :: c in files ==> files[c].id == c && files[c].save < writes && files[c].savedAt <= startedAt
      ensures Fresh(Snapshot()) && pendingDir == files && now == startedAt && nextSave == writes
    {
      draining, inFlightCommands, assignmentGenerations := false, {}, map[];
      pendingDir, calls, passes, foreign, now, nextSave := files, map[], map[], {}, startedAt, writes;
    }

    method ProcessCommand(f: FrameId, id: CommandId)
      requires f !in calls
      modifies this
      ensures Snapshot() == BeginStep(old(Snapshot()), f, id)
    {
      if draining { return; }
      if id in inFlightCommands { return; }
      inFlightCommands := inFlightCommands + {id};
      calls := calls[f := Frame(id, Fetching, None)];
    }

    method ClearAssignment(id: CommandId)
      modifies this`assignmentGenerations
      ensures assignmentGenerations == old(assignmentGenerations) - {id}
    {
      assignmentGenerations := assignmentGenerations - {id};
    }

    method GetAssignmentGeneration(id: CommandId) returns (generation: Option<nat>)
      ensures generation == Held(Snapshot(), id)
    {
      generation := if id in assignmentGenerations then Some(assignmentGenerations[id]) else None;
    }

    method FinishCall(f: FrameId)
      requires f in calls
      modifies this
      ensures Snapshot() == Finish(old(Snapshot()), f)
    {
      var id := calls[f].id;
      inFlightCommands := inFlightCommands - {id};
      ClearAssignment(id);
      calls := calls - {f};
    }

    method RemovePendingResult(id: CommandId, unlinkOk: bool)
      modifies this`pendingDir
      ensures Snapshot() == Unlink(old(Snapshot()), id, unlinkOk)
    {
      if unlinkOk { pendingDir := pendingDir - {id}; }
    }

    method SavePendingResult(id: CommandId, result: CommandResult, saveOk: bool) returns (saved: Option<nat>)
      modifies this`pendingDir, this`nextSave
      ensures nextSave == old(nextSave) + 1 && saved == if saveOk then Some(old(nextSave)) else None
      ensures pendingDir ==
              if saveOk then old(pendingDir)[id := Saved(old(nextSave), id, result, now, old(Held(Snapshot(), id)))]
              else old(pendingDir)
    {
      saved := None;
      var generation := GetAssignmentGeneration(id);
      if saveOk {
        pendingDir := pendingDir[id := Saved(nextSave, id, result, now, generation)];
        saved := Some(nextSave);
      }
      nextSave := nextSave + 1;
    }

    method PersistAndSubmit(f: FrameId, result: CommandResult, saveOk: bool)
      requires f in calls
      modifies this
      ensures Snapshot() == SaveAndSubmit(old(Snapshot()), f, result, saveOk)
    {
      var saved := SavePendingResult(calls[f].id, result, saveOk);
      calls := calls[f := calls[f].(phase := Submitting(result, saved, now))];
    }

    method OnCommandFetched(f: FrameId, answer: FetchAnswer, saveOk: bool)
      requires f in calls && calls[f].phase.Fetching?
      modifies this
      ensures Snapshot() == FetchStep(old(Snapshot()), f, answer, saveOk)
    {
      match answer {
        case Fetched(generation) =>
          if generation.Some? {
            assignmentGenerations := assignmentGenerations[calls[f].id := generation.value];
          }
          calls := calls[f := Frame(calls[f].id, Executing, generation)];
        case ClaimedElsewhere => FinishCall(f);
        case FetchFailed(message) => PersistAndSubmit(f, CommandResult(false, message), saveOk);
      }
    }

    method OnExecuted(f: FrameId, result: CommandResult, saveOk: bool)
      requires f in calls && calls[f].phase.Executing?
      modifies this
      ensures Snapshot() == SaveAndSubmit(old(Snapshot()), f, result, saveOk)
    {
      PersistAndSubmit(f, result, saveOk);
    }

    method OnThrown(f: FrameId, conflict: bool, message: string, saveOk: bool, unlinkOk: bool)
      requires f in calls && calls[f].phase.Executing?
      modifies this
      ensures Snapshot() == ThrewStep(old(Snapshot()), f, conflict, message, saveOk, unlinkOk)
    {
      if conflict {
        RemovePendingResult(calls[f].id, unlinkOk);
        FinishCall(f);
        return;
      }
      PersistAndSubmit(f, CommandResult(false, message), saveOk);
    }

    method OnSubmitAnswered(f: FrameId, answer: SubmitAnswer, unlinkOk: bool)
      requires f in calls && calls[f].phase.Submitting?
      modifies this
      ensures Snapshot() == SubmitStep(old(Snapshot()), f, answer, unlinkOk)
    {
      if !answer.SubmitFailed? { RemovePendingResult(calls[f].id, unlinkOk); }
      FinishCall(f);
    }

    method StartPass(p: PassId, minAgeMs: nat, order: seq<CommandId>, stuck: set<CommandId>)
      requires Listing(Snapshot(), order)
      modifies this
      ensures Snapshot() == LoadStep(old(Snapshot()), p, minAgeMs, order, stuck)
    {
      var results, left := LoadPendingResults(Snapshot(), pendingDir, now, minAgeMs, order, stuck);
      pendingDir, passes := left, passes[p := results];
    }

    method OnPassAnswered(p: PassId, answer: PassAnswer, unlinkOk: bool)
      requires p in passes && passes[p] != []
      modifies this
      ensures Snapshot() == PassStep(old(Snapshot()), p, answer, unlinkOk)
    {
      var pending := passes[p][0];
      passes := passes[p := passes[p][1..]];
      if !answer.PassFailed? { RemovePendingResult(pending.id, unlinkOk); }
    }

    /** Any event, delivered to the object: it takes exactly the step of the protocol. */
    method Handle(e: Event)
      requires Enabled(Snapshot(), e)
      modifies this
      ensures Snapshot() == Step(old(Snapshot()), e)
    {
      match e {
        case Begin(f, id) => ProcessCommand(f, id);
        case FetchAnswered(f, answer, saveOk) => OnCommandFetched(f, answer, saveOk);
        case Executed(f, result, saveOk) => OnExecuted(f, result, saveOk);
        case Threw(f, conflict, message, saveOk, unlinkOk) => OnThrown(f, conflict, message, saveOk, unlinkOk);
        case SubmitAnswered(f, answer, unlinkOk) => OnSubmitAnswered(f, answer, unlinkOk);
        case LoadPass(p, minAgeMs, order, stuck, other) =>
          StartPass(p, minAgeMs, order, stuck);
          if other { foreign := foreign + {p}; }
        case PassAnswered(p, answer, unlinkOk) => OnPassAnswered(p, answer, unlinkOk);
        case StartDraining => draining := true;
        case StopTransport =>
        case OtherSaved(id, result, generation) =>
          pendingDir := pendingDir[id := Saved(nextSave, id, result, now, generation)];
          nextSave := nextSave + 1;
        case Elapse(ms) => now := now + ms;
      }
    }
  }
}
