/**
 * What every event of the protocol does to a single call, to the file of its command and to a pass, told event by
 * event and without the step functions.
 */
module CallPhases {
  import opened Options
  import opened CommandTransport
  import opened ResultFate

  /** The event is the next one of this call. */
  predicate Concerns(e: Event, f: FrameId) {
    (e.FetchAnswered? || e.Executed? || e.Threw? || e.SubmitAnswered?) && e.frame == f
  }

  /** The result a call goes on to store and to post: the executed one, or a failure that carries the message. */
  function ResultOf(e: Event): Option<CommandResult> {
    match e
    case FetchAnswered(_, FetchFailed(message), _) => Some(CommandResult(false, message))
    case Executed(_, result, _) => Some(result)
    case Threw(_, false, message, _, _) => Some(CommandResult(false, message))
    case _ => None
  }

  /** The executed result is posted as it is, and it is what was stored, if storing worked. */
  lemma ExecutedPosts(s: Transport, f: FrameId, result: CommandResult, saveOk: bool)
    requires Enabled(s, Executed(f, result, saveOk))
    ensures var t := Step(s, Executed(f, result, saveOk));
            var c := s.frames[f].id;
            && f in t.frames && t.frames[f].id == c && t.frames[f].phase.Submitting?
            && t.frames[f].phase.result == result && t.frames[f].phase.since == s.now
            && t.frames[f].phase.saved == (if saveOk then Some(s.nextSave) else None)
            && (saveOk ==> c in t.disk && t.disk[c] == Saved(s.nextSave, c, result, s.now, Held(s, c)))
            && (!saveOk ==> t.disk == s.disk)
  {
  }

  /** A failed fetch and an error of the execution are stored and posted as failures with their message. */
  lemma FailurePosts(s: Transport, f: FrameId, e: Event, message: string, saveOk: bool)
    requires Enabled(s, e)
    requires e == FetchAnswered(f, FetchFailed(message), saveOk)
             || (e.Threw? && !e.conflict && e.frame == f && e.message == message && e.saveOk == saveOk)
    ensures var t, c, failure := Step(s, e), s.frames[f].id, CommandResult(false, message);
            && f in t.frames && t.frames[f].id == c && t.frames[f].phase.Submitting?
            && t.frames[f].phase.result == failure && t.frames[f].phase.since == s.now
            && t.frames[f].phase.saved == (if saveOk then Some(s.nextSave) else None)
            && (saveOk ==> c in t.disk && t.disk[c] == Saved(s.nextSave, c, failure, s.now, Held(s, c)))
            && (!saveOk ==> t.disk == s.disk)
  {
  }

  /** A command that was fetched executes under the generation that came with it; nothing is stored for it yet. */
  lemma FetchedExecutes(s: Transport, f: FrameId, generation: Option<nat>, saveOk: bool)
    requires Enabled(s, FetchAnswered(f, Fetched(generation), saveOk))
    ensures var t := Step(s, FetchAnswered(f, Fetched(generation), saveOk));
            && t.frames == s.frames[f := Frame(s.frames[f].id, Executing, generation)]
            && t.disk == s.disk && t.inFlight == s.inFlight
            && (generation.Some? ==> t.generations == s.generations[s.frames[f].id := generation.value])
            && (generation.None? ==> t.generations == s.generations)
  {
  }

  /** The call is over: its id and its generation go with it, every other call and every other file stays. */
  ghost predicate Over(s: Transport, t: Transport, f: FrameId)
    requires f in s.frames
  {
    var c := s.frames[f].id;
    && t.frames == s.frames - {f} && t.inFlight == s.inFlight - {c} && t.generations == s.generations - {c}
    && t.disk - {c} == s.disk - {c}
  }

  /** A command that another replica has taken ends without a trace. */
  lemma ClaimedEnds(s: Transport, f: FrameId, saveOk: bool)
    requires Enabled(s, FetchAnswered(f, ClaimedElsewhere, saveOk))
    ensures var t := Step(s, FetchAnswered(f, ClaimedElsewhere, saveOk)); Over(s, t, f) && t.disk == s.disk
  {
  }

  /** Any answer to the submit ends the call; the file of its command goes unless the submit failed. */
  lemma AnswerEnds(s: Transport, f: FrameId, answer: SubmitAnswer, unlinkOk: bool)
    requires Enabled(s, SubmitAnswered(f, answer, unlinkOk))
    ensures var t := Step(s, SubmitAnswered(f, answer, unlinkOk));
            && Over(s, t, f)
            && (s.frames[f].id in t.disk <==> s.frames[f].id in s.disk && (answer.SubmitFailed? || !unlinkOk))
            && (s.frames[f].id in t.disk ==> t.disk[s.frames[f].id] == s.disk[s.frames[f].id])
  {
  }

  /** An error with status 409 would end it too, and take the file. */
  lemma ConflictEnds(s: Transport, f: FrameId, message: string, saveOk: bool, unlinkOk: bool)
    requires Enabled(s, Threw(f, true, message, saveOk, unlinkOk))
    ensures var t := Step(s, Threw(f, true, message, saveOk, unlinkOk));
            Over(s, t, f) && (s.frames[f].id in t.disk <==> s.frames[f].id in s.disk && !unlinkOk)
  {
  }

  /** A call begins by fetching, unless the agent drains or the command is in flight; then nothing happens. */
  lemma BeginFetches(s: Transport, f: FrameId, id: CommandId)
    requires Enabled(s, Begin(f, id))
    ensures var t := Step(s, Begin(f, id));
            if s.draining || id in s.inFlight then t == s
            else t == s.(inFlight := s.inFlight + {id}, frames := s.frames[f := Frame(id, Fetching, None)])
  {
  }

  /** Events of other calls, of passes and of other processes leave a call alone. */
  lemma {:induction false} OthersKeepTheCall(s: Transport, e: Event, f: FrameId)
    requires Enabled(s, e) && f in s.frames && !Concerns(e, f)
    ensures f in Step(s, e).frames && Step(s, e).frames[f] == s.frames[f]
  {
    CallStepShape(s, e);
  }

  /** Exactly the events with a result to store write to the directory, and they write that result. */
  lemma {:induction false} WritesExactly(s: Transport, e: Event, c: CommandId)
    requires Enabled(s, e) && c in Step(s, e).disk
    ensures if ResultOf(e).Some? && e.saveOk && s.frames[e.frame].id == c
            then Step(s, e).disk[c] == Saved(s.nextSave, c, ResultOf(e).value, s.now, Held(s, c))
            else if e.OtherSaved? && e.id == c
            then Step(s, e).disk[c] == Saved(s.nextSave, c, e.result, s.now, e.generation)
            else c in s.disk && Step(s, e).disk[c] == s.disk[c]
  {
    if Saves(e) {
      if e.Executed? {
        ExecutedPosts(s, e.frame, e.result, e.saveOk);
      } else {
        FailurePosts(s, e.frame, e, if e.Threw? then e.message else e.fetch.message, e.saveOk);
      }
    } else if !e.LoadPass? && !e.OtherSaved? {
      OtherwiseShrinks(s, e);
    }
  }

  /** In every run of a new process, a call that stored its result posts exactly what the file of its command holds. */
  lemma PostsWhatIsStored(s: Transport, es: seq<Event>, f: FrameId)
    requires Fresh(s) && Schedule(s, es)
    requires f in Run(s, es).frames && HasStored(Run(s, es).frames[f]) && Run(s, es).frames[f].id in Run(s, es).disk
    ensures var t := Run(s, es);
            && t.disk[t.frames[f].id].result == t.frames[f].phase.result
            && t.disk[t.frames[f].id].save == t.frames[f].phase.saved.value
  {
    FreshInv(s);
    FreshSavesMatch(s);
    RunSavesMatch(s, es);
  }

  // ------------------------------------------------------------- the passes

  /** What a pass has posted in the course of a run. */
  ghost function PostedBy(s: Transport, es: seq<Event>, p: PassId): seq<Saved>
    requires Schedule(s, es)
    decreases |es|
  {
    if es == [] then [] else
    var posted := if es[0].PassAnswered? && es[0].pass == p then [s.passes[p][0]] else [];
    posted + PostedBy(Step(s, es[0]), es[1..], p)
  }

  /** Whatever the answer, exactly the file it was for is done with. */
  lemma {:induction false} AnswerTakesTheHead(s: Transport, e: Event, p: PassId)
    requires Enabled(s, e) && p in s.passes
    ensures p in Step(s, e).passes
    ensures Step(s, e).passes[p] == if e.PassAnswered? && e.pass == p then s.passes[p][1..] else s.passes[p]
  {
    if Saves(e) { assert Step(s, e).passes == s.passes; }
  }

  /**
   * In any run a pass posts each file it loaded once, in order: what it has posted and what it has left make up its
   * load.
   */
  lemma {:induction false} PassPostsEachOnce(s: Transport, es: seq<Event>, p: PassId)
    requires p in s.passes && Schedule(s, es)
    ensures p in Run(s, es).passes
    ensures s.passes[p] == PostedBy(s, es, p) + Run(s, es).passes[p]
    decreases |es|
  {
    if es != [] {
      AnswerTakesTheHead(s, es[0], p);
      PassPostsEachOnce(Step(s, es[0]), es[1..], p);
    }
  }

  /** A pass loads exactly the files that are neither stale nor too young, each once. */
  lemma LoadsExactly(s: Transport, p: PassId, minAgeMs: nat, order: seq<CommandId>, stuck: set<CommandId>,
      foreign: bool)
    requires Enabled(s, LoadPass(p, minAgeMs, order, stuck, foreign)) && FilesNumbered(s)
    ensures var loaded := Step(s, LoadPass(p, minAgeMs, order, stuck, foreign)).passes[p];
            && (forall c :: c in s.disk ==>
                  (s.disk[c] in loaded <==>
                   s.now - s.disk[c].savedAt <= PENDING_RESULT_STALE_THRESHOLD_MS
                   && (minAgeMs == 0 || s.now - s.disk[c].savedAt >= minAgeMs)))
            && (forall file :: file in loaded ==> file.id in s.disk && s.disk[file.id] == file)
            && (forall i, j :: 0 <= i < j < |loaded| ==> loaded[i].id != loaded[j].id)
  {
    LoadedOnce(s, minAgeMs, order);
    assert Step(s, LoadPass(p, minAgeMs, order, stuck, foreign)).passes[p] == Loaded(s, minAgeMs, order);
    forall c | c in s.disk && !Stale(s.disk[c], s.now) && OldEnough(s.disk[c], s.now, minAgeMs)
      ensures s.disk[c] in Loaded(s, minAgeMs, order)
    {
      LoadedExactly(s, minAgeMs, order, c);
    }
    forall file | file in Loaded(s, minAgeMs, order) ensures file.id in s.disk && s.disk[file.id] == file {
      var c :| c in order && file == s.disk[c];
    }
  }

  lemma {:induction false} LoadedOnce(s: Transport, minAgeMs: nat, order: seq<CommandId>)
    requires (forall c <- order :: c in s.disk) && FilesNumbered(s)
    requires forall i, j :: 0 <= i < j < |order| ==> order[i] != order[j]
    ensures var loaded := Loaded(s, minAgeMs, order);
            && (forall i, j :: 0 <= i < j < |loaded| ==> loaded[i].id != loaded[j].id)
            && (forall file :: file in loaded ==> file.id in order)
  {
    if order != [] {
      LoadedOnce(s, minAgeMs, order[1..]);
      OneMoreInFront(s.disk[order[0]], Loaded(s, minAgeMs, order[1..]), order);
    }
  }

  lemma OneMoreInFront(file: Saved, rest: seq<Saved>, order: seq<CommandId>)
    requires order != [] && file.id == order[0]
    requires forall i, j :: 0 <= i < j < |order| ==> order[i] != order[j]
    requires forall i, j :: 0 <= i < j < |rest| ==> rest[i].id != rest[j].id
    requires forall x :: x in rest ==> x.id in order[1..]
    ensures forall i, j :: 0 <= i < j < |[file] + rest| ==> ([file] + rest)[i].id != ([file] + rest)[j].id
    ensures forall x :: x in [file] + rest ==> x.id in order
  {
    assert order == [order[0]] + order[1..];
    forall k | 0 <= k < |rest| ensures rest[k].id != file.id {
      assert rest[k] in rest;
    }
  }
}
