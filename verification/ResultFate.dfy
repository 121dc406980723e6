/**
 * What becomes of a persisted result, over any interleaving of command calls and passes.
 *
 * A file of the pending directory is named after its command alone, so two results of one command share a place and
 * are told apart here by the number of the write that stored them. Execution follows the rule of the dispatcher in
 * src/commands/index.ts: it turns every error of a handler into a result, so no execution throws a status.
 */
module ResultFate {
  import opened Options
  import opened CommandTransport

  /** No execution rejects with a status 409. */
  ghost predicate Dispatched(es: seq<Event>) {
    forall e <- es :: e.Threw? ==> !e.conflict
  }

  // ------------------------------------------------------ the command

  /** A result submitted for the command was accepted, or refused with a 4xx other than 401 and 403. */
  ghost predicate Answers(s: Transport, e: Event, c: CommandId)
    requires Enabled(s, e)
  {
    || (e.SubmitAnswered? && !e.submit.SubmitFailed? && s.frames[e.frame].id == c)
    || (e.PassAnswered? && !e.answer.PassFailed? && s.passes[e.pass][0].id == c)
  }

  /** Its file is older than the limit. */
  ghost predicate Expires(s: Transport, e: Event, c: CommandId)
    requires Enabled(s, e)
  {
    e.LoadPass? && c in s.disk && Stale(s.disk[c], s.now)
  }

  ghost predicate UnlinkWorked(e: Event, c: CommandId) {
    match e
    case SubmitAnswered(_, _, unlinkOk) => unlinkOk
    case PassAnswered(_, _, unlinkOk) => unlinkOk
    case LoadPass(_, _, _, stuck, _) => c !in stuck
    case _ => false
  }

  /** Exactly an answer for the command and the age limit remove a file, and they do so when the unlink works. */
  lemma {:induction false} RemovedExactlyWhen(s: Transport, e: Event, c: CommandId)
    requires Enabled(s, e) && c in s.disk && (e.Threw? ==> !e.conflict)
    ensures c !in Step(s, e).disk <==> (Answers(s, e, c) || Expires(s, e, c)) && UnlinkWorked(e, c)
  {
  }

  ghost predicate AnsweredOrExpiredDuring(s: Transport, es: seq<Event>, c: CommandId)
    requires Schedule(s, es)
    decreases |es|
  {
    es != [] && (Answers(s, es[0], c) || Expires(s, es[0], c) || AnsweredOrExpiredDuring(Step(s, es[0]), es[1..], c))
  }

  /**
   * Once a result of a command is persisted, one stays on disk until the server answers for the command or it
   * expires.
   */
  lemma {:induction false} NoSilentLoss(s: Transport, es: seq<Event>, c: CommandId)
    requires c in s.disk && Schedule(s, es) && Dispatched(es)
    ensures c in Run(s, es).disk || AnsweredOrExpiredDuring(s, es, c)
    decreases |es|
  {
    if es != [] && !(Answers(s, es[0], c) || Expires(s, es[0], c)) {
      RemovedExactlyWhen(s, es[0], c);
      NoSilentLoss(Step(s, es[0]), es[1..], c);
    }
  }

  // ------------------------------------------------------ the single result

  /** How a stored result ends: `Displaced` is the loss, by an answer to another result of its command. */
  datatype Fate = Kept | Answered | Expired | Replaced | Displaced

  ghost predicate OnDisk(s: Transport, c: CommandId, v: nat) {
    c in s.disk && s.disk[c].save == v
  }

  /** The server answers a request that carried this very result. */
  ghost predicate AnswersSave(s: Transport, e: Event, c: CommandId, v: nat)
    requires Enabled(s, e)
  {
    || (e.SubmitAnswered? && !e.submit.SubmitFailed? && s.frames[e.frame].id == c
         && s.frames[e.frame].phase.saved == Some(v))
    || (e.PassAnswered? && !e.answer.PassFailed? && s.passes[e.pass][0].id == c && s.passes[e.pass][0].save == v)
  }

  /** The server answers a request for the command that carried another result. */
  ghost predicate DisplacesSave(s: Transport, e: Event, c: CommandId, v: nat)
    requires Enabled(s, e)
  {
    Answers(s, e, c) && !AnswersSave(s, e, c, v)
  }

  /** A new run of the command persists its result, in this process or in another. */
  ghost predicate ReplacesSave(s: Transport, e: Event, c: CommandId)
    requires Enabled(s, e)
  {
    (Saves(e) && e.saveOk && s.frames[e.frame].id == c) || (e.OtherSaved? && e.id == c)
  }

  /** Storing a result concerns the file of its own command alone. */
  lemma SaveWrites(s: Transport, f: FrameId, result: CommandResult, saveOk: bool, c: CommandId)
    requires f in s.frames && c in s.disk && s.disk[c].save < s.nextSave
    ensures var t := SaveAndSubmit(s, f, result, saveOk);
            && c in t.disk
            && (t.disk[c].save == s.disk[c].save <==> !(saveOk && s.frames[f].id == c))
            && (t.disk[c].save == s.disk[c].save ==> t.disk[c] == s.disk[c])
  {
  }

  lemma {:induction false} ReplacedExactlyBySaves(s: Transport, e: Event, c: CommandId)
    requires Enabled(s, e) && c in s.disk && c in Step(s, e).disk && s.disk[c].save < s.nextSave
    ensures Step(s, e).disk[c].save == s.disk[c].save <==> !ReplacesSave(s, e, c)
    ensures !ReplacesSave(s, e, c) ==> Step(s, e).disk[c] == s.disk[c]
  {
    if Saves(e) {
      var result := if e.Executed? then e.result else
                    CommandResult(false, if e.Threw? then e.message else e.fetch.message);
      SaveWrites(s, e.frame, result, e.saveOk, c);
    } else if !e.LoadPass? && !e.OtherSaved? {
      OtherwiseShrinks(s, e);
    }
  }

  /** The exact step: a stored result goes when it is replaced, answered, expired, or displaced by another's answer. */
  lemma {:induction false} SaveGoneExactlyWhen(s: Transport, e: Event, c: CommandId, v: nat)
    requires Enabled(s, e) && OnDisk(s, c, v) && v < s.nextSave && (e.Threw? ==> !e.conflict)
    ensures !OnDisk(Step(s, e), c, v) <==>
            || ReplacesSave(s, e, c)
            || (UnlinkWorked(e, c) && (AnswersSave(s, e, c, v) || DisplacesSave(s, e, c, v) || Expires(s, e, c)))
  {
    RemovedExactlyWhen(s, e, c);
    if c in Step(s, e).disk { ReplacedExactlyBySaves(s, e, c); }
  }

  /** The first event that takes the result from the disk decides its fate. */
  ghost function FateOf(s: Transport, es: seq<Event>, c: CommandId, v: nat): Fate
    requires Schedule(s, es)
    decreases |es|
  {
    if es == [] then Kept
    else if ReplacesSave(s, es[0], c) then Replaced
    else if UnlinkWorked(es[0], c) && AnswersSave(s, es[0], c, v) then Answered
    else if UnlinkWorked(es[0], c) && DisplacesSave(s, es[0], c, v) then Displaced
    else if UnlinkWorked(es[0], c) && Expires(s, es[0], c) then Expired
    else FateOf(Step(s, es[0]), es[1..], c, v)
  }

  /** Numbers are never used twice: what is gone does not come back. */
  lemma {:induction false} StepNeverBack(s: Transport, e: Event, c: CommandId, v: nat)
    requires Enabled(s, e) && !OnDisk(s, c, v) && v < s.nextSave
    ensures !OnDisk(Step(s, e), c, v) && v < Step(s, e).nextSave
  {
  }

  lemma {:induction false} NeverBack(s: Transport, es: seq<Event>, c: CommandId, v: nat)
    requires Schedule(s, es) && !OnDisk(s, c, v) && v < s.nextSave
    ensures !OnDisk(Run(s, es), c, v)
    decreases |es|
  {
    if es != [] {
      StepNeverBack(s, es[0], c, v);
      NeverBack(Step(s, es[0]), es[1..], c, v);
    }
  }

  lemma {:induction false} SavesGrow(s: Transport, e: Event)
    requires Enabled(s, e)
    ensures Step(s, e).nextSave >= s.nextSave
  {
  }

  /** Every stored result is, after any run, on disk or accounted for: exactly one of the two. */
  lemma {:induction false} KeptExactlyWhenOnDisk(s: Transport, es: seq<Event>, c: CommandId, v: nat)
    requires Schedule(s, es) && Dispatched(es) && OnDisk(s, c, v) && v < s.nextSave
    ensures FateOf(s, es, c, v).Kept? <==> OnDisk(Run(s, es), c, v)
    decreases |es|
  {
    if es != [] {
      var t := Step(s, es[0]);
      SaveGoneExactlyWhen(s, es[0], c, v);
      SavesGrow(s, es[0]);
      if OnDisk(t, c, v) {
        KeptExactlyWhenOnDisk(t, es[1..], c, v);
      } else {
        NeverBack(t, es[1..], c, v);
      }
    }
  }

  // ------------------------------------------------ when it can be displaced

  /** A pass still holds another result of the command. */
  ghost predicate AnotherHeld(s: Transport, c: CommandId, v: nat) {
    exists p, x :: p in s.passes && x in s.passes[p] && x.id == c && x.save != v
  }

  /** A pass takes a result it got no answer for exactly when its next file is another result of the same command. */
  lemma PassDisplacesExactlyWhen(s: Transport, p: PassId, answer: PassAnswer, unlinkOk: bool, c: CommandId, v: nat)
    requires Enabled(s, PassAnswered(p, answer, unlinkOk)) && OnDisk(s, c, v) && v < s.nextSave
    ensures var e := PassAnswered(p, answer, unlinkOk);
            !OnDisk(Step(s, e), c, v) && !AnswersSave(s, e, c, v) <==>
            !answer.PassFailed? && unlinkOk && s.passes[p][0].id == c && s.passes[p][0].save != v
  {
    SaveGoneExactlyWhen(s, PassAnswered(p, answer, unlinkOk), c, v);
  }

  predicate HasStored(frame: Frame) {
    frame.phase.Submitting? && frame.phase.saved.Some?
  }

  /** What a submit that is under way has stored is what is on disk, and what it posts. */
  ghost predicate SavesMatch(s: Transport) {
    forall f :: f in s.frames && HasStored(s.frames[f]) && s.frames[f].id in s.disk ==>
      && s.disk[s.frames[f].id].save == s.frames[f].phase.saved.value
      && s.disk[s.frames[f].id].result == s.frames[f].phase.result
  }

  lemma SaveKeepsMatch(s: Transport, f: FrameId, result: CommandResult, saveOk: bool)
    requires Exact(s) && SavesMatch(s) && f in s.frames
    ensures SavesMatch(SaveAndSubmit(s, f, result, saveOk))
  {
  }

  lemma {:induction false} StepSavesMatch(s: Transport, e: Event)
    requires Exact(s) && SavesMatch(s) && Enabled(s, e)
    ensures SavesMatch(Step(s, e))
  {
    if Saves(e) {
      var result := if e.Executed? then e.result else
                    CommandResult(false, if e.Threw? then e.message else e.fetch.message);
      SaveKeepsMatch(s, e.frame, result, e.saveOk);
    } else if !e.LoadPass? && !e.OtherSaved? {
      OtherwiseShrinks(s, e);
    }
  }

  lemma FreshSavesMatch(s: Transport)
    requires Fresh(s)
    ensures SavesMatch(s)
  {
  }

  lemma {:induction false} RunSavesMatch(s: Transport, es: seq<Event>)
    requires Inv(s) && SavesMatch(s) && Schedule(s, es)
    ensures SavesMatch(Run(s, es))
    decreases |es|
  {
    if es != [] {
      StepInv(s, es[0]);
      StepSavesMatch(s, es[0]);
      RunSavesMatch(Step(s, es[0]), es[1..]);
    }
  }

  lemma SubmitDisplaces(s: Transport, f: FrameId, answer: SubmitAnswer, unlinkOk: bool, v: nat)
    requires SavesMatch(s) && Enabled(s, SubmitAnswered(f, answer, unlinkOk)) && OnDisk(s, s.frames[f].id, v)
    requires v < s.nextSave
    ensures var e := SubmitAnswered(f, answer, unlinkOk);
            !OnDisk(Step(s, e), s.frames[f].id, v) && !AnswersSave(s, e, s.frames[f].id, v) <==>
            !answer.SubmitFailed? && unlinkOk && s.frames[f].phase.saved.None?
  {
    SaveGoneExactlyWhen(s, SubmitAnswered(f, answer, unlinkOk), s.frames[f].id, v);
  }

  /**
   * After any run of a new process: the answer to a submit displaces a stored result exactly when the submitted one
   * could not be stored itself.
   */
  lemma SubmitDisplacesExactlyWhen(s: Transport, es: seq<Event>, f: FrameId, answer: SubmitAnswer, unlinkOk: bool)
    requires Fresh(s) && Schedule(s, es) && Enabled(Run(s, es), SubmitAnswered(f, answer, unlinkOk))
    requires Run(s, es).frames[f].id in Run(s, es).disk
    ensures var t, e := Run(s, es), SubmitAnswered(f, answer, unlinkOk);
            var c := t.frames[f].id;
            var v := t.disk[c].save;
            !OnDisk(Step(t, e), c, v) && !AnswersSave(t, e, c, v) <==>
            !answer.SubmitFailed? && unlinkOk && t.frames[f].phase.saved.None?
  {
    FreshInv(s);
    FreshSavesMatch(s);
    RunInv(s, es);
    RunSavesMatch(s, es);
    SubmitDisplaces(Run(s, es), f, answer, unlinkOk, Run(s, es).disk[Run(s, es).frames[f].id].save);
  }

  /** Not the begin of a run of the command, here or in another process. */
  predicate NoNewRun(e: Event, c: CommandId) {
    e.Begin? || e.OtherSaved? ==> e.id != c
  }

  ghost predicate NeverBegun(es: seq<Event>, c: CommandId) {
    forall e <- es :: NoNewRun(e, c)
  }

  /** The file is on disk, every pass that holds a result of the command holds this one, and so does its submit. */
  ghost predicate Alone(s: Transport, c: CommandId, file: Saved) {
    && c in s.disk && s.disk[c] == file
    && !AnotherHeld(s, c, file.save)
    && OnlySubmits(s.frames, c, file.save)
  }

  ghost predicate OnlySubmits(frames: map<FrameId, Frame>, c: CommandId, v: nat) {
    forall f :: f in frames && frames[f].id == c ==> frames[f].phase.Submitting? && frames[f].phase.saved == Some(v)
  }

  predicate OfCall(e: Event) {
    e.Begin? || e.FetchAnswered? || e.Executed? || e.Threw? || e.SubmitAnswered?
  }

  /** The call `f` is over, or it goes on for the same command, and no other call changes. */
  ghost predicate OnlyCall(s: map<FrameId, Frame>, t: map<FrameId, Frame>, f: FrameId, id: CommandId) {
    t == s - {f} || (f in t && t == s[f := t[f]] && t[f].id == id)
  }

  lemma SaveShape(s: Transport, f: FrameId, result: CommandResult, saveOk: bool)
    requires f in s.frames
    ensures OnlyCall(s.frames, SaveAndSubmit(s, f, result, saveOk).frames, f, s.frames[f].id)
  {
  }

  lemma FetchShape(s: Transport, f: FrameId, answer: FetchAnswer, saveOk: bool)
    requires f in s.frames
    ensures OnlyCall(s.frames, FetchStep(s, f, answer, saveOk).frames, f, s.frames[f].id)
  {
  }

  lemma ThrewShape(s: Transport, f: FrameId, conflict: bool, message: string, saveOk: bool, unlinkOk: bool)
    requires f in s.frames
    ensures OnlyCall(s.frames, ThrewStep(s, f, conflict, message, saveOk, unlinkOk).frames, f, s.frames[f].id)
  {
    if !conflict { SaveShape(s, f, CommandResult(false, message), saveOk); }
  }

  lemma {:induction false} CallStepShape(s: Transport, e: Event)
    requires Enabled(s, e)
    ensures var t := Step(s, e).frames;
            t == s.frames
              || (OfCall(e) && OnlyCall(s.frames, t, e.frame, if e.Begin? then e.id else s.frames[e.frame].id))
  {
    match e
    case FetchAnswered(f, answer, saveOk) => FetchShape(s, f, answer, saveOk);
    case Executed(f, result, saveOk) => SaveShape(s, f, result, saveOk);
    case Threw(f, conflict, message, saveOk, unlinkOk) => ThrewShape(s, f, conflict, message, saveOk, unlinkOk);
    case _ =>
  }

  lemma OnlyCallKeepsCommand(s: map<FrameId, Frame>, t: map<FrameId, Frame>, f: FrameId, id: CommandId, g: FrameId)
    requires OnlyCall(s, t, f, id) && (f in s ==> s[f].id == id) && g in s && g in t
    ensures t[g].id == s[g].id
  {
  }

  /** A call that is still there after a step runs the same command. */
  lemma {:induction false} KeepsCommand(s: Transport, e: Event, g: FrameId)
    requires Enabled(s, e) && g in s.frames && g in Step(s, e).frames
    ensures Step(s, e).frames[g].id == s.frames[g].id
  {
    CallStepShape(s, e);
    var t := Step(s, e).frames;
    if t != s.frames {
      OnlyCallKeepsCommand(s.frames, t, e.frame, if e.Begin? then e.id else s.frames[e.frame].id, g);
    }
  }

  lemma {:induction false} OnlySubmitsStep(s: Transport, e: Event, c: CommandId, v: nat)
    requires OnlySubmits(s.frames, c, v) && Enabled(s, e) && NoNewRun(e, c)
    ensures OnlySubmits(Step(s, e).frames, c, v)
  {
    CallStepShape(s, e);
    if e.SubmitAnswered? { assert Step(s, e).frames == s.frames - {e.frame}; }
  }

  lemma LoadHoldsNoOther(s: Transport, p: PassId, minAgeMs: nat, order: seq<CommandId>, stuck: set<CommandId>,
      c: CommandId, v: nat)
    requires FilesNumbered(s) && !AnotherHeld(s, c, v) && (c in s.disk ==> s.disk[c].save == v)
    requires forall d <- order :: d in s.disk
    ensures !AnotherHeld(LoadStep(s, p, minAgeMs, order, stuck), c, v)
  {
    var t := LoadStep(s, p, minAgeMs, order, stuck);
    forall q, x | q in t.passes && x in t.passes[q] && x.id == c ensures x.save == v {
      if q == p { assert exists d <- order :: x == s.disk[d]; }
    }
  }

  lemma {:induction false} OthersStayAway(s: Transport, e: Event, c: CommandId, v: nat)
    requires FilesNumbered(s) && !AnotherHeld(s, c, v) && OnDisk(s, c, v) && Enabled(s, e)
    ensures !AnotherHeld(Step(s, e), c, v)
  {
    if e.LoadPass? {
      LoadHoldsNoOther(s, e.pass, e.minAgeMs, e.order, e.stuck, c, v);
    } else if Saves(e) || e.OtherSaved? {
      assert Step(s, e).passes == s.passes;
    } else {
      OtherwiseShrinks(s, e);
    }
  }

  /** Alone, a result is displaced by nothing. */
  lemma {:induction false} AloneStep(s: Transport, e: Event, c: CommandId, file: Saved)
    requires FilesNumbered(s) && Alone(s, c, file) && Enabled(s, e) && NoNewRun(e, c)
        && (e.Threw? ==> !e.conflict)
    ensures !ReplacesSave(s, e, c) && !DisplacesSave(s, e, c, file.save)
    ensures Alone(Step(s, e), c, file)
            || (UnlinkWorked(e, c) && (AnswersSave(s, e, c, file.save) || Expires(s, e, c)))
  {
    NotDisplaced(s, e, c, file);
    SaveGoneExactlyWhen(s, e, c, file.save);
    OnlySubmitsStep(s, e, c, file.save);
    OthersStayAway(s, e, c, file.save);
    if OnDisk(Step(s, e), c, file.save) { ReplacedExactlyBySaves(s, e, c); }
  }

  lemma {:induction false} NotDisplaced(s: Transport, e: Event, c: CommandId, file: Saved)
    requires Alone(s, c, file) && Enabled(s, e) && NoNewRun(e, c)
    ensures !ReplacesSave(s, e, c) && !DisplacesSave(s, e, c, file.save)
  {
    if e.PassAnswered? { assert s.passes[e.pass][0] in s.passes[e.pass]; }
  }

  lemma {:induction false} AloneIsSafe(s: Transport, es: seq<Event>, c: CommandId, file: Saved)
    requires Inv(s) && Alone(s, c, file) && Schedule(s, es) && Dispatched(es) && NeverBegun(es, c)
    ensures var fate := FateOf(s, es, c, file.save);
            || fate.Answered? || fate.Expired?
            || (fate.Kept? && c in Run(s, es).disk && Run(s, es).disk[c] == file)
    decreases |es|
  {
    if es != [] {
      AloneStep(s, es[0], c, file);
      StepInv(s, es[0]);
      if Alone(Step(s, es[0]), c, file) {
        AloneStays(s, es[0], c, file);
        AloneIsSafe(Step(s, es[0]), es[1..], c, file);
      }
    }
  }

  lemma AloneStays(s: Transport, e: Event, c: CommandId, file: Saved)
    requires FilesNumbered(s) && Enabled(s, e) && (e.Threw? ==> !e.conflict) && c in s.disk && s.disk[c] == file
    requires c in Step(s, e).disk && Step(s, e).disk[c] == file
    ensures !(UnlinkWorked(e, c) && (AnswersSave(s, e, c, file.save) || Expires(s, e, c)))
  {
    SaveGoneExactlyWhen(s, e, c, file.save);
  }

  /** The state right after an executed result is stored: only a pass can hold another result of the command. */
  lemma SavedIsAlone(s: Transport, f: FrameId, result: CommandResult)
    requires Inv(s) && Enabled(s, Executed(f, result, true))
    ensures var c, t := s.frames[f].id, Step(s, Executed(f, result, true));
            && Inv(t) && OnDisk(t, c, s.nextSave) && t.passes == s.passes
            && t.disk[c] == Saved(s.nextSave, c, result, s.now, s.frames[f].ownGeneration)
            && (!AnotherHeld(t, c, s.nextSave) ==> Alone(t, c, t.disk[c]))
  {
    StepInv(s, Executed(f, result, true));
  }

  /**
   * Within one run of a command: if no pass holds another result of the command when the executed one is stored, then
   * whatever happens, until it is itself answered or past the age limit it stays on disk, unchanged, under the
   * generation this very call was assigned.
   */
  lemma ExecutedResultKept(s: Transport, f: FrameId, result: CommandResult, es: seq<Event>)
    requires Inv(s) && Enabled(s, Executed(f, result, true)) && !AnotherHeld(s, s.frames[f].id, s.nextSave)
    requires Schedule(Step(s, Executed(f, result, true)), es) && Dispatched(es) && NeverBegun(es, s.frames[f].id)
    ensures var c, t := s.frames[f].id, Step(s, Executed(f, result, true));
            var fate := FateOf(t, es, c, s.nextSave);
            || fate.Answered? || fate.Expired?
            || (fate.Kept? && c in Run(t, es).disk
                && Run(t, es).disk[c] == Saved(s.nextSave, c, result, s.now, s.frames[f].ownGeneration))
  {
    var t := Step(s, Executed(f, result, true));
    SavedIsAlone(s, f, result);
    AloneIsSafe(t, es, s.frames[f].id, t.disk[s.frames[f].id]);
  }

  // ------------------------------------------------------- and exactly when

  /** No continuation without a new run of the command displaces the result. */
  ghost predicate NeverDisplaced(t: Transport, c: CommandId, v: nat) {
    forall es: seq<Event> :: Schedule(t, es) && Dispatched(es) && NeverBegun(es, c) ==> !FateOf(t, es, c, v).Displaced?
  }

  /** The pass goes on, without answers, up to its other result of the command, and gets an answer for that one. */
  lemma {:induction false} DisplacingRun(t: Transport, p: PassId, i: nat, c: CommandId, v: nat) returns (es: seq<Event>)
    requires p in t.passes && i < |t.passes[p]| && t.passes[p][i].id == c && t.passes[p][i].save != v
    ensures Schedule(t, es) && Dispatched(es) && NeverBegun(es, c) && FateOf(t, es, c, v).Displaced?
    decreases i
  {
    if i == 0 {
      es := [PassAnswered(p, PassRefused, true)];
      assert es[1..] == [];
    } else {
      var e := PassAnswered(p, PassFailed, true);
      var next := Step(t, e);
      assert next.passes[p][i - 1] == t.passes[p][i];
      var rest := DisplacingRun(next, p, i - 1, c, v);
      es := [e] + rest;
      assert es[1..] == rest;
    }
  }

  /** A result just stored is safe from an answer to another one exactly when no pass holds another one. */
  lemma SafeExactlyWhenAlone(s: Transport, f: FrameId, result: CommandResult)
    requires Inv(s) && Enabled(s, Executed(f, result, true))
    ensures NeverDisplaced(Step(s, Executed(f, result, true)), s.frames[f].id, s.nextSave)
            <==> !AnotherHeld(s, s.frames[f].id, s.nextSave)
  {
    var c, t := s.frames[f].id, Step(s, Executed(f, result, true));
    SavedIsAlone(s, f, result);
    if AnotherHeld(s, c, s.nextSave) {
      var p, x :| p in s.passes && x in s.passes[p] && x.id == c && x.save != s.nextSave;
      var i :| 0 <= i < |t.passes[p]| && t.passes[p][i] == x;
      var es := DisplacingRun(t, p, i, c, s.nextSave);
    } else {
      forall es: seq<Event> | Schedule(t, es) && Dispatched(es) && NeverBegun(es, c)
        ensures !FateOf(t, es, c, s.nextSave).Displaced?
      {
        ExecutedResultKept(s, f, result, es);
      }
    }
  }

  // ---------------------------------------------------------- a run that loses one

  /** A new process, 90 seconds after its predecessor stored a result of command "c". */
  function OldFile(earlier: CommandResult): Transport {
    Transport(false, {}, map[], map["c" := Saved(0, "c", earlier, 0, None)], map[], map[], {}, 90_000, 1)
  }

  /** Its pass has taken that file up when the server assigns the command anew, and the new run executes. */
  lemma RunsAgain(earlier: CommandResult) returns (es: seq<Event>)
    ensures Fresh(OldFile(earlier)) && Schedule(OldFile(earlier), es) && Dispatched(es)
    ensures Run(OldFile(earlier), es)
         == OldFile(earlier).(inFlight := {"c"}, generations := map["c" := 7],
                          frames := map[0 := Frame("c", Executing, Some(7))],
                          passes := map[0 := [Saved(0, "c", earlier, 0, None)]])
  {
    var s := OldFile(earlier);
    var e1 := LoadPass(0, 90_000, ["c"], {}, false);
    assert Listing(s, ["c"]) && ["c"][1..] == [] && Loaded(s, 90_000, ["c"]) == [s.disk["c"]];
    RunSnoc(s, [], e1);
    var es1 := [] + [e1];
    assert Run(s, es1) == s.(passes := map[0 := [s.disk["c"]]]);
    RunSnoc(s, es1, Begin(0, "c"));
    var es2 := es1 + [Begin(0, "c")];
    RunSnoc(s, es2, FetchAnswered(0, Fetched(Some(7)), true));
    es := es2 + [FetchAnswered(0, Fetched(Some(7)), true)];
  }

  /**
   * Then the new result is stored in the same place, the answer to the old one removes it, and its own submit fails:
   * nothing is left on disk, and no request that carried the new result was ever answered.
   */
  lemma NewerResultLost(earlier: CommandResult, result: CommandResult) returns (before: seq<Event>, after: seq<Event>)
    ensures after == [PassAnswered(0, PassRefused, true), SubmitAnswered(0, SubmitFailed, true)]
    ensures Fresh(OldFile(earlier)) && Schedule(OldFile(earlier), before) && Dispatched(before)
    ensures var t := Run(OldFile(earlier), before);
            && Enabled(t, Executed(0, result, true))
            && var u := Step(t, Executed(0, result, true));
            && Schedule(u, after) && OnDisk(u, "c", 1) && u.disk["c"].result == result
            && FateOf(u, after, "c", 1) == Displaced
            && Run(u, after).disk == map[] && Run(u, after).frames == map[]
  {
    before := RunsAgain(earlier);
    after := [PassAnswered(0, PassRefused, true), SubmitAnswered(0, SubmitFailed, true)];
    var u := Step(Run(OldFile(earlier), before), Executed(0, result, true));
    var w := Step(u, after[0]);
    assert after[1..] == [after[1]] && after[1..][1..] == [];
    assert Schedule(Step(w, after[1]), []) && Run(Step(w, after[1]), []) == Step(w, after[1]);
    assert Schedule(w, [after[1]]) && Run(w, [after[1]]) == Step(w, after[1]);
    assert w.disk == map[];
  }

  /** Of a result that could not be stored, nothing is on disk: without an answer to its submit it is gone. */
  lemma UnstoredResult(s: Transport, f: FrameId, result: CommandResult, es: seq<Event>)
    requires Inv(s) && Enabled(s, Executed(f, result, false)) && Schedule(Step(s, Executed(f, result, false)), es)
    ensures !OnDisk(Run(Step(s, Executed(f, result, false)), es), s.frames[f].id, s.nextSave)
  {
    NeverBack(Step(s, Executed(f, result, false)), es, s.frames[f].id, s.nextSave);
  }
}
