/**
 * src/agent-transport.ts, src/pending-result-store.ts and the assignment map of src/api-client.ts.
 *
 * Everything between two `await`s of the source is one step here. A step takes the whole transport
 * to its next state; a run is any interleaving of the steps of any number of `processCommand` calls
 * and any number of passes over the files of results that still have to be sent.
 *
 * The directory of these files is shared by all worker processes of one host. The state is that of one process; what
 * the others do to the directory are events of its environment: they store results of commands of their own, and they
 * run passes, of any age and at any time.
 */
module CommandTransport {
  import opened Options
  import RetryStrategy

  type CommandId = string
  type FrameId = nat
  type PassId = nat

  const PENDING_RESULT_STALE_THRESHOLD_MS: nat := 3 * 60 * 60 * 1000
  const PENDING_RESULT_MIN_RETRY_AGE_MS: nat := 90 * 1000

  /** The longest a main-path submit can be outstanding (see SubmitBoundBelowFlushAge). */
  function SubmitMaxMs(): nat {
    RetryStrategy.RetryBound(
      RetryStrategy.API_MAX_RETRIES, RetryStrategy.API_REQUEST_TIMEOUT, RetryStrategy.API_BASE_DELAY_MS)
  }

  datatype CommandResult = CommandResult(success: bool, text: string)

  /** One file of the pending directory. `save` numbers the writes, so that two writes can be told apart. */
  datatype Saved = Saved(save: nat, id: CommandId, result: CommandResult, savedAt: nat, generation: Option<nat>)

  /** Where one `processCommand` call is waiting. */
  datatype Phase =
    | Fetching
    | Executing
    | Submitting(result: CommandResult, saved: Option<nat>, since: nat)

  /** `assigned` is the generation this call's own `getCommand` returned. */
  datatype Frame = Frame(id: CommandId, phase: Phase, ownGeneration: Option<nat>)

  /** `foreign` are the passes of other processes. */
  datatype Transport = Transport(
    draining: bool,
    inFlight: set<CommandId>,
    generations: map<CommandId, nat>,
    disk: map<CommandId, Saved>,
    frames: map<FrameId, Frame>,
    passes: map<PassId, seq<Saved>>,
    foreign: set<PassId>,
    now: nat,
    nextSave: nat)

  /** The answer to `getCommand`; the generation is there when the command is assigned to this replica. */
  datatype FetchAnswer = Fetched(generation: Option<nat>) | ClaimedElsewhere | FetchFailed(message: string)

  datatype SubmitAnswer = Accepted | Conflict | SubmitFailed

  /** What a pass learns about one file: accepted, a 4xx other than 401 and 403, or anything else. */
  datatype PassAnswer = PassAccepted | PassRefused | PassFailed

  datatype Event =
    | Begin(frame: FrameId, id: CommandId)
    | FetchAnswered(frame: FrameId, fetch: FetchAnswer, saveOk: bool)
    | Executed(frame: FrameId, result: CommandResult, saveOk: bool)
    | Threw(frame: FrameId, conflict: bool, message: string, saveOk: bool, unlinkOk: bool)
    | SubmitAnswered(frame: FrameId, submit: SubmitAnswer, unlinkOk: bool)
    | LoadPass(pass: PassId, minAgeMs: nat, order: seq<CommandId>, stuck: set<CommandId>, foreign: bool)
    | PassAnswered(pass: PassId, answer: PassAnswer, unlinkOk: bool)
    | StartDraining
    | StopTransport
    | OtherSaved(id: CommandId, result: CommandResult, generation: Option<nat>)
    | Elapse(ms: nat)

  // ---------------------------------------------------------------- steps

  /** `finally`: forget exactly this command, its assignment and the call itself. */
  function Finish(s: Transport, f: FrameId): Transport
    requires f in s.frames
  {
    var id := s.frames[f].id;
    s.(inFlight := s.inFlight - {id}, generations := s.generations - {id}, frames := s.frames - {f})
  }

  function Unlink(s: Transport, id: CommandId, unlinkOk: bool): Transport {
    if unlinkOk then s.(disk := s.disk - {id}) else s
  }

  function Held(s: Transport, id: CommandId): Option<nat> {
    if id in s.generations then Some(s.generations[id]) else None
  }

  /** Persist a result and post it: both happen before the next `await`. */
  function SaveAndSubmit(s: Transport, f: FrameId, result: CommandResult, saveOk: bool): Transport
    requires f in s.frames
  {
    var id := s.frames[f].id;
    var file := Saved(s.nextSave, id, result, s.now, Held(s, id));
    s.(disk := if saveOk then s.disk[id := file] else s.disk,
       nextSave := s.nextSave + 1,
       frames := s.frames[
         f := s.frames[f].(phase := Submitting(result, if saveOk then Some(s.nextSave) else None, s.now))])
  }

  function BeginStep(s: Transport, f: FrameId, id: CommandId): Transport {
    if s.draining || id in s.inFlight then s
    else s.(inFlight := s.inFlight + {id}, frames := s.frames[f := Frame(id, Fetching, None)])
  }

  function FetchStep(s: Transport, f: FrameId, answer: FetchAnswer, saveOk: bool): Transport
    requires f in s.frames
  {
    var id := s.frames[f].id;
    match answer
    case Fetched(generation) =>
      s.(generations := if generation.Some? then s.generations[id := generation.value] else s.generations,
         frames := s.frames[f := Frame(id, Executing, generation)])
    case ClaimedElsewhere => Finish(s, f)
    case FetchFailed(message) => SaveAndSubmit(s, f, CommandResult(false, message), saveOk)
  }

  function ThrewStep(s: Transport, f: FrameId, conflict: bool, message: string, saveOk: bool, unlinkOk: bool): Transport
    requires f in s.frames
  {
    if conflict then Finish(Unlink(s, s.frames[f].id, unlinkOk), f)
    else SaveAndSubmit(s, f, CommandResult(false, message), saveOk)
  }

  function SubmitStep(s: Transport, f: FrameId, answer: SubmitAnswer, unlinkOk: bool): Transport
    requires f in s.frames
  {
    if answer.SubmitFailed? then Finish(s, f) else Finish(Unlink(s, s.frames[f].id, unlinkOk), f)
  }

  predicate Stale(file: Saved, now: nat) {
    now - file.savedAt > PENDING_RESULT_STALE_THRESHOLD_MS
  }

  predicate OldEnough(file: Saved, now: nat, minAgeMs: nat) {
    minAgeMs == 0 || now - file.savedAt >= minAgeMs
  }

  /** The files a pass will post, in directory order. */
  function Loaded(s: Transport, minAgeMs: nat, order: seq<CommandId>): (files: seq<Saved>)
    requires forall c <- order :: c in s.disk
    ensures forall file <- files :: exists c <- order :: file == s.disk[c]
    ensures forall file <- files :: !Stale(file, s.now) && OldEnough(file, s.now, minAgeMs)
  {
    if order == [] then [] else
    var rest := Loaded(s, minAgeMs, order[1..]);
    var file := s.disk[order[0]];
    if Stale(file, s.now) || !OldEnough(file, s.now, minAgeMs) then rest else [file] + rest
  }

  /** `stuck` are the stale files whose unlink failed. */
  function LoadStep(s: Transport, p: PassId, minAgeMs: nat, order: seq<CommandId>, stuck: set<CommandId>): Transport
    requires forall c <- order :: c in s.disk
  {
    s.(disk := map c | c in s.disk && (Stale(s.disk[c], s.now) ==> c in stuck) :: s.disk[c],
       passes := s.passes[p := Loaded(s, minAgeMs, order)])
  }

  /** A pass of this process or of another one. */
  function LoadBy(s: Transport, p: PassId, minAgeMs: nat, order: seq<CommandId>, stuck: set<CommandId>, foreign: bool)
    : Transport
    requires forall c <- order :: c in s.disk
  {
    var loaded := LoadStep(s, p, minAgeMs, order, stuck);
    if foreign then loaded.(foreign := s.foreign + {p}) else loaded
  }

  /** Another process stores a result of a command of its own. */
  function OtherSaveStep(s: Transport, id: CommandId, result: CommandResult, generation: Option<nat>): Transport {
    s.(disk := s.disk[id := Saved(s.nextSave, id, result, s.now, generation)], nextSave := s.nextSave + 1)
  }

  function PassStep(s: Transport, p: PassId, answer: PassAnswer, unlinkOk: bool): Transport
    requires p in s.passes && s.passes[p] != []
  {
    var posted := s.(passes := s.passes[p := s.passes[p][1..]]);
    if answer.PassFailed? then posted else Unlink(posted, s.passes[p][0].id, unlinkOk)
  }

  /** A directory listing: every file once, in any order. */
  ghost predicate Listing(s: Transport, order: seq<CommandId>) {
    (forall c :: c in order <==> c in s.disk) && (forall i, j :: 0 <= i < j < |order| ==> order[i] != order[j])
  }

  /** When the environment can deliver this event. */
  ghost predicate Enabled(s: Transport, e: Event) {
    match e
    case Begin(f, _) => f !in s.frames
    case FetchAnswered(f, _, _) => f in s.frames && s.frames[f].phase.Fetching?
    case Executed(f, _, _) => f in s.frames && s.frames[f].phase.Executing?
    case Threw(f, _, _, _, _) => f in s.frames && s.frames[f].phase.Executing?
    case SubmitAnswered(f, _, _) => f in s.frames && s.frames[f].phase.Submitting?
    case LoadPass(p, minAgeMs, order, stuck, foreign) =>
      && p !in s.passes && p !in s.foreign && Listing(s, order)
      && (foreign || minAgeMs >= PENDING_RESULT_MIN_RETRY_AGE_MS || s.frames == map[])
    case PassAnswered(p, _, _) => p in s.passes && s.passes[p] != []
    case StartDraining => true
    case StopTransport => true
    case OtherSaved(id, _, _) => id !in s.inFlight
    case Elapse(ms) => SubmitsEndInTime(s, s.now + ms)
  }

  /** The time bound proved for withRetry, as a property of the clock. */
  ghost predicate SubmitsEndInTime(s: Transport, now: nat) {
    forall f :: f in s.frames && s.frames[f].phase.Submitting? ==> now <= s.frames[f].phase.since + SubmitMaxMs()
  }

  ghost function Step(s: Transport, e: Event): Transport
    requires Enabled(s, e)
  {
    match e
    case Begin(f, id) => BeginStep(s, f, id)
    case FetchAnswered(f, answer, saveOk) => FetchStep(s, f, answer, saveOk)
    case Executed(f, result, saveOk) => SaveAndSubmit(s, f, result, saveOk)
    case Threw(f, conflict, message, saveOk, unlinkOk) => ThrewStep(s, f, conflict, message, saveOk, unlinkOk)
    case SubmitAnswered(f, answer, unlinkOk) => SubmitStep(s, f, answer, unlinkOk)
    case LoadPass(p, minAgeMs, order, stuck, foreign) => LoadBy(s, p, minAgeMs, order, stuck, foreign)
    case PassAnswered(p, answer, unlinkOk) => PassStep(s, p, answer, unlinkOk)
    case StartDraining => s.(draining := true)
    case StopTransport => s
    case OtherSaved(id, result, generation) => OtherSaveStep(s, id, result, generation)
    case Elapse(ms) => s.(now := s.now + ms)
  }

  /** Every event of the schedule is deliverable when it comes. */
  ghost predicate Schedule(s: Transport, es: seq<Event>)
    decreases |es|
  {
    es == [] || (Enabled(s, es[0]) && Schedule(Step(s, es[0]), es[1..]))
  }

  ghost function Run(s: Transport, es: seq<Event>): Transport
    requires Schedule(s, es)
    decreases |es|
  {
    if es == [] then s else Run(Step(s, es[0]), es[1..])
  }

  // ------------------------------------------------ in-flight exactness

  ghost predicate Running(s: Transport, id: CommandId) {
    exists f :: f in s.frames && s.frames[f].id == id
  }

  /** The in-flight set is the set of ids of live calls, no id has two calls, and only live ids hold a generation. */
  ghost predicate Exact(s: Transport) {
    && (forall f :: f in s.frames ==> s.frames[f].id in s.inFlight)
    && (forall c :: c in s.inFlight ==> Running(s, c))
    && (forall f, g :: f in s.frames && g in s.frames && s.frames[f].id == s.frames[g].id ==> f == g)
    && s.generations.Keys <= s.inFlight
  }

  /** The generation held for a command is the one its live call was assigned, never one of an earlier run. */
  ghost predicate Fenced(s: Transport) {
    forall f :: f in s.frames ==>
      && Held(s, s.frames[f].id) == s.frames[f].ownGeneration
      && (s.frames[f].phase.Fetching? ==> s.frames[f].ownGeneration == None)
  }

  // -------------------------------------------------- no parallel posts

  /** Each file is stored under its own id, with a number and a time of the past. */
  ghost predicate FilesNumbered(s: Transport) {
    && (forall c :: c in s.disk ==> s.disk[c].id == c && s.disk[c].save < s.nextSave && s.disk[c].savedAt <= s.now)
    && (forall p, file :: p in s.passes && file in s.passes[p] ==> file.save < s.nextSave)
  }

  ghost predicate Posting(frame: Frame, save: nat) {
    frame.phase.Submitting? && frame.phase.saved == Some(save)
  }

  /** No pass of this process holds a file whose own main-path submit is still outstanding. */
  ghost predicate NoParallelPost(s: Transport) {
    && SubmitsEndInTime(s, s.now)
    && (forall f :: f in s.frames ==> Consistent(s, s.frames[f]))
    && (forall f, p, file :: f in s.frames && p in s.passes && p !in s.foreign && file in s.passes[p] ==>
          !Posting(s.frames[f], file.save))
  }

  /** A save in progress is numbered, and if its file is on disk it carries the time the submit began. */
  ghost predicate Consistent(s: Transport, frame: Frame) {
    && (forall save: nat :: Posting(frame, save) ==> save < s.nextSave && frame.phase.since <= s.now)
    && (forall c :: c in s.disk && Posting(frame, s.disk[c].save) ==> s.disk[c].savedAt == frame.phase.since)
  }

  ghost predicate Inv(s: Transport) {
    Exact(s) && Fenced(s) && FilesNumbered(s) && NoParallelPost(s)
  }

  /** A process that has just started: any files left by its predecessor, nothing running. */
  ghost predicate Fresh(s: Transport) {
    && !s.draining && s.inFlight == {} && s.generations == map[] && s.frames == map[] && s.passes == map[]
         && s.foreign == {}
    && FilesNumbered(s)
  }

  lemma FreshInv(s: Transport)
    requires Fresh(s)
    ensures Inv(s)
  {
  }

  lemma SubmitBoundBelowFlushAge()
    ensures SubmitMaxMs() == 33_000 < PENDING_RESULT_MIN_RETRY_AGE_MS
  {
    assert RetryStrategy.Pow2(2) == 4;
  }

  lemma FinishExact(s: Transport, f: FrameId)
    requires Exact(s) && f in s.frames
    ensures Exact(Finish(s, f))
  {
    var t := Finish(s, f);
    forall c | c in t.inFlight ensures Running(t, c) {
      assert Running(s, c);
      var g :| g in s.frames && s.frames[g].id == c;
      assert g in t.frames && t.frames[g].id == c;
    }
  }

  /** A call that moves on keeps its id. */
  lemma AdvanceExact(s: Transport, t: Transport, f: FrameId, frame: Frame)
    requires Exact(s) && f in s.frames && frame.id == s.frames[f].id
    requires t.frames == s.frames[f := frame] && t.inFlight == s.inFlight && t.generations.Keys <= t.inFlight
    ensures Exact(t)
  {
    forall c | c in t.inFlight ensures Running(t, c) {
      assert Running(s, c);
      var g :| g in s.frames && s.frames[g].id == c;
      assert g in t.frames && t.frames[g].id == c;
    }
  }

  lemma BeginExact(s: Transport, f: FrameId, id: CommandId)
    requires Exact(s) && f !in s.frames
    ensures Exact(BeginStep(s, f, id))
  {
    var t := BeginStep(s, f, id);
    forall c | c in t.inFlight ensures Running(t, c) {
      if c in s.inFlight {
        assert Running(s, c);
        var g :| g in s.frames && s.frames[g].id == c;
        assert g in t.frames && t.frames[g].id == c;
      } else {
        assert f in t.frames && t.frames[f].id == c;
      }
    }
  }

  lemma SaveExact(s: Transport, f: FrameId, result: CommandResult, saveOk: bool)
    requires Exact(s) && f in s.frames
    ensures Exact(SaveAndSubmit(s, f, result, saveOk))
  {
    var t := SaveAndSubmit(s, f, result, saveOk);
    AdvanceExact(s, t, f, t.frames[f]);
  }

  lemma FetchExact(s: Transport, f: FrameId, answer: FetchAnswer, saveOk: bool)
    requires Exact(s) && f in s.frames
    ensures Exact(FetchStep(s, f, answer, saveOk))
  {
    match answer
    case Fetched(_) =>
      var t := FetchStep(s, f, answer, saveOk);
      AdvanceExact(s, t, f, t.frames[f]);
    case ClaimedElsewhere => FinishExact(s, f);
    case FetchFailed(message) => SaveExact(s, f, CommandResult(false, message), saveOk);
  }

  /** Nothing else touches the calls, the in-flight set or the generations. */
  lemma FramesKept(s: Transport, t: Transport)
    requires Exact(s) && t.frames == s.frames && t.inFlight == s.inFlight && t.generations == s.generations
    ensures Exact(t)
  {
    forall c | c in t.inFlight ensures Running(t, c) {
      assert Running(s, c);
    }
  }

  lemma UnlinkExact(s: Transport, f: FrameId, unlinkOk: bool)
    requires Exact(s) && f in s.frames
    ensures Exact(Finish(Unlink(s, s.frames[f].id, unlinkOk), f))
  {
    var t := Unlink(s, s.frames[f].id, unlinkOk);
    FramesKept(s, t);
    FinishExact(t, f);
  }

  lemma {:induction false} StepExact(s: Transport, e: Event)
    requires Exact(s) && Enabled(s, e)
    ensures Exact(Step(s, e))
  {
    match e
    case Begin(f, id) => BeginExact(s, f, id);
    case FetchAnswered(f, answer, saveOk) => FetchExact(s, f, answer, saveOk);
    case Executed(f, result, saveOk) => SaveExact(s, f, result, saveOk);
    case Threw(f, conflict, message, saveOk, unlinkOk) =>
      UnlinkExact(s, f, unlinkOk);
      SaveExact(s, f, CommandResult(false, message), saveOk);
    case SubmitAnswered(f, answer, unlinkOk) =>
      UnlinkExact(s, f, unlinkOk);
      FinishExact(s, f);
    case _ => FramesKept(s, Step(s, e));
  }

  lemma FinishFenced(s: Transport, f: FrameId)
    requires Exact(s) && Fenced(s) && f in s.frames
    ensures Fenced(Finish(s, f))
  {
  }

  lemma FetchFenced(s: Transport, f: FrameId, answer: FetchAnswer, saveOk: bool)
    requires Exact(s) && Fenced(s) && f in s.frames && s.frames[f].phase.Fetching?
    ensures Fenced(FetchStep(s, f, answer, saveOk))
  {
    if answer.ClaimedElsewhere? { FinishFenced(s, f); }
  }

  lemma BeginFenced(s: Transport, f: FrameId, id: CommandId)
    requires Exact(s) && Fenced(s) && f !in s.frames
    ensures Fenced(BeginStep(s, f, id))
  {
  }

  lemma SaveFenced(s: Transport, f: FrameId, result: CommandResult, saveOk: bool)
    requires Fenced(s) && f in s.frames
    ensures Fenced(SaveAndSubmit(s, f, result, saveOk))
  {
  }

  lemma ThrewFenced(s: Transport, f: FrameId, conflict: bool, message: string, saveOk: bool, unlinkOk: bool)
    requires Exact(s) && Fenced(s) && f in s.frames
    ensures Fenced(ThrewStep(s, f, conflict, message, saveOk, unlinkOk))
  {
    if conflict {
      UnlinkFenced(s, f, unlinkOk);
    } else {
      SaveFenced(s, f, CommandResult(false, message), saveOk);
    }
  }

  lemma UnlinkFenced(s: Transport, f: FrameId, unlinkOk: bool)
    requires Exact(s) && Fenced(s) && f in s.frames
    ensures Fenced(Finish(Unlink(s, s.frames[f].id, unlinkOk), f))
  {
    var t := Unlink(s, s.frames[f].id, unlinkOk);
    FramesKept(s, t);
    FencedFrames(s, t);
    FinishFenced(t, f);
  }

  lemma FencedFrames(s: Transport, t: Transport)
    requires Fenced(s) && t.frames == s.frames && t.generations == s.generations
    ensures Fenced(t)
  {
  }

  lemma {:induction false} StepFenced(s: Transport, e: Event)
    requires Exact(s) && Fenced(s) && Enabled(s, e)
    ensures Fenced(Step(s, e))
  {
    match e
    case Begin(f, id) => BeginFenced(s, f, id);
    case FetchAnswered(f, answer, saveOk) => FetchFenced(s, f, answer, saveOk);
    case Executed(f, result, saveOk) => SaveFenced(s, f, result, saveOk);
    case Threw(f, conflict, message, saveOk, unlinkOk) => ThrewFenced(s, f, conflict, message, saveOk, unlinkOk);
    case SubmitAnswered(f, answer, unlinkOk) =>
      UnlinkFenced(s, f, unlinkOk);
      FinishFenced(s, f);
    case _ => FencedFrames(s, Step(s, e));
  }

  lemma LoadNumbered(s: Transport, p: PassId, minAgeMs: nat, order: seq<CommandId>, stuck: set<CommandId>)
    requires FilesNumbered(s) && forall c <- order :: c in s.disk
    ensures FilesNumbered(LoadStep(s, p, minAgeMs, order, stuck))
  {
    var t := LoadStep(s, p, minAgeMs, order, stuck);
    forall q, file | q in t.passes && file in t.passes[q] ensures file.save < t.nextSave {
      assert q == p ==> exists c <- order :: file == s.disk[c];
    }
  }

  lemma SaveNumbered(s: Transport, f: FrameId, result: CommandResult, saveOk: bool)
    requires FilesNumbered(s) && f in s.frames
    ensures FilesNumbered(SaveAndSubmit(s, f, result, saveOk))
  {
  }

  /** No file, no pending post and no submit that was not there before. */
  ghost predicate Shrinks(s: Transport, t: Transport) {
    && t.nextSave == s.nextSave && s.now <= t.now && t.foreign == s.foreign
    && (forall c :: c in t.disk ==> c in s.disk && t.disk[c] == s.disk[c])
    && (forall p, file :: p in t.passes && file in t.passes[p] ==> p in s.passes && file in s.passes[p])
    && (forall f :: f in t.frames && t.frames[f].phase.Submitting? ==> f in s.frames && t.frames[f] == s.frames[f])
  }

  lemma ShrinkingIsSafe(s: Transport, t: Transport)
    requires FilesNumbered(s) && NoParallelPost(s) && Shrinks(s, t)
    requires t.now == s.now || SubmitsEndInTime(s, t.now)
    ensures FilesNumbered(t) && NoParallelPost(t)
  {
    forall f | f in t.frames ensures Consistent(t, t.frames[f]) {
      assert f in s.frames ==> Consistent(s, s.frames[f]);
    }
  }

  predicate Saves(e: Event) {
    e.Executed? || (e.Threw? && !e.conflict) || (e.FetchAnswered? && e.fetch.FetchFailed?)
  }

  lemma FinishShrinks(s: Transport, f: FrameId, id: CommandId, unlinkOk: bool)
    requires f in s.frames
    ensures Shrinks(s, Finish(s, f)) && Shrinks(s, Finish(Unlink(s, id, unlinkOk), f))
  {
  }

  lemma PassShrinks(s: Transport, p: PassId, answer: PassAnswer, unlinkOk: bool)
    requires p in s.passes && s.passes[p] != []
    ensures Shrinks(s, PassStep(s, p, answer, unlinkOk))
  {
  }

  lemma BeginShrinks(s: Transport, f: FrameId, id: CommandId)
    requires f !in s.frames
    ensures Shrinks(s, BeginStep(s, f, id))
  {
  }

  lemma FetchShrinks(s: Transport, f: FrameId, answer: FetchAnswer, saveOk: bool)
    requires f in s.frames && !answer.FetchFailed?
    ensures Shrinks(s, FetchStep(s, f, answer, saveOk))
  {
    FinishShrinks(s, f, s.frames[f].id, false);
  }

  lemma {:induction false} OtherwiseShrinks(s: Transport, e: Event)
    requires Enabled(s, e) && !Saves(e) && !e.LoadPass? && !e.OtherSaved?
    ensures Shrinks(s, Step(s, e))
  {
    match e
    case Begin(f, id) => BeginShrinks(s, f, id);
    case FetchAnswered(f, answer, saveOk) => FetchShrinks(s, f, answer, saveOk);
    case Threw(f, _, _, _, unlinkOk) => FinishShrinks(s, f, s.frames[f].id, unlinkOk);
    case SubmitAnswered(f, _, unlinkOk) => FinishShrinks(s, f, s.frames[f].id, unlinkOk);
    case PassAnswered(p, answer, unlinkOk) => PassShrinks(s, p, answer, unlinkOk);
    case _ =>
  }

  /** A file that is old enough for a pass was not written by a submit that is still outstanding. */
  lemma LoadNoParallelPost(s: Transport, p: PassId, minAgeMs: nat, order: seq<CommandId>, stuck: set<CommandId>)
    requires NoParallelPost(s) && Enabled(s, LoadPass(p, minAgeMs, order, stuck, false))
    ensures NoParallelPost(LoadStep(s, p, minAgeMs, order, stuck))
  {
    SubmitBoundBelowFlushAge();
    var t := LoadStep(s, p, minAgeMs, order, stuck);
    forall f | f in t.frames ensures Consistent(t, t.frames[f]) {
      assert Consistent(s, s.frames[f]);
    }
    forall f, q, file | f in t.frames && q in t.passes && q !in t.foreign && file in t.passes[q]
      ensures !Posting(t.frames[f], file.save)
    {
      if q == p {
        assert exists c <- order :: file == s.disk[c];
        assert Consistent(s, s.frames[f]);
      }
    }
  }

  /** A pass of another process is none of this one. */
  lemma ForeignNoParallelPost(s: Transport, p: PassId, minAgeMs: nat, order: seq<CommandId>, stuck: set<CommandId>)
    requires NoParallelPost(s) && Listing(s, order)
    ensures NoParallelPost(LoadBy(s, p, minAgeMs, order, stuck, true))
  {
    var t := LoadBy(s, p, minAgeMs, order, stuck, true);
    forall f | f in t.frames ensures Consistent(t, t.frames[f]) {
      assert Consistent(s, s.frames[f]);
    }
  }

  lemma OtherSaveIsSafe(s: Transport, id: CommandId, result: CommandResult, generation: Option<nat>)
    requires FilesNumbered(s) && NoParallelPost(s)
    ensures var t := OtherSaveStep(s, id, result, generation); FilesNumbered(t) && NoParallelPost(t)
  {
    var t := OtherSaveStep(s, id, result, generation);
    forall f | f in t.frames ensures Consistent(t, t.frames[f]) {
      assert Consistent(s, s.frames[f]);
    }
  }

  lemma SaveNoParallelPost(s: Transport, f: FrameId, result: CommandResult, saveOk: bool)
    requires FilesNumbered(s) && NoParallelPost(s) && f in s.frames
    ensures NoParallelPost(SaveAndSubmit(s, f, result, saveOk))
  {
    var t := SaveAndSubmit(s, f, result, saveOk);
    forall g | g in t.frames ensures Consistent(t, t.frames[g]) {
      assert Consistent(s, s.frames[g]);
    }
  }

  lemma {:induction false} StepPosts(s: Transport, e: Event)
    requires FilesNumbered(s) && NoParallelPost(s) && Enabled(s, e)
    ensures FilesNumbered(Step(s, e)) && NoParallelPost(Step(s, e))
  {
    if e.LoadPass? {
      LoadNumbered(s, e.pass, e.minAgeMs, e.order, e.stuck);
      if e.foreign {
        ForeignNoParallelPost(s, e.pass, e.minAgeMs, e.order, e.stuck);
      } else {
        LoadNoParallelPost(s, e.pass, e.minAgeMs, e.order, e.stuck);
      }
    } else if e.OtherSaved? {
      OtherSaveIsSafe(s, e.id, e.result, e.generation);
    } else if Saves(e) {
      var result := if e.Executed? then e.result else
                    CommandResult(false, if e.Threw? then e.message else e.fetch.message);
      SaveNumbered(s, e.frame, result, e.saveOk);
      SaveNoParallelPost(s, e.frame, result, e.saveOk);
    } else {
      OtherwiseShrinks(s, e);
      ShrinkingIsSafe(s, Step(s, e));
    }
  }

  lemma {:induction false} StepInv(s: Transport, e: Event)
    requires Inv(s) && Enabled(s, e)
    ensures Inv(Step(s, e))
  {
    StepExact(s, e);
    StepFenced(s, e);
    StepPosts(s, e);
  }

  lemma {:induction false} RunInv(s: Transport, es: seq<Event>)
    requires Inv(s) && Schedule(s, es)
    ensures Inv(Run(s, es))
    decreases |es|
  {
    if es != [] {
      StepInv(s, es[0]);
      RunInv(Step(s, es[0]), es[1..]);
    }
  }

  // ------------------------------------------------- passes of other processes

  /** Pass `p` holds a file whose main-path submit is still outstanding. */
  ghost predicate PostsInParallel(s: Transport, p: PassId)
    requires p in s.passes
  {
    exists f, file :: f in s.frames && file in s.passes[p] && Posting(s.frames[f], file.save)
  }

  /** The file of a command is that of an outstanding submit. */
  ghost predicate BeingSubmitted(s: Transport, c: CommandId)
    requires c in s.disk
  {
    exists f :: f in s.frames && Posting(s.frames[f], s.disk[c].save)
  }

  lemma {:induction false} LoadedExactly(s: Transport, minAgeMs: nat, order: seq<CommandId>, c: CommandId)
    requires (forall d <- order :: d in s.disk) && c in order
    requires !Stale(s.disk[c], s.now) && OldEnough(s.disk[c], s.now, minAgeMs)
    ensures s.disk[c] in Loaded(s, minAgeMs, order)
  {
    if order[0] != c { LoadedExactly(s, minAgeMs, order[1..], c); }
  }

  /**
   * Whoever loads the directory, and with whatever minimum age: the pass posts a result in parallel with its own
   * main-path submit exactly when the file of an outstanding submit is not stale and passes the age filter.
   */
  lemma ParallelExactlyWhen(s: Transport, p: PassId, minAgeMs: nat, order: seq<CommandId>, stuck: set<CommandId>,
      foreign: bool)
    requires Listing(s, order)
    ensures PostsInParallel(LoadBy(s, p, minAgeMs, order, stuck, foreign), p) <==>
            exists c :: c in s.disk && BeingSubmitted(s, c)
                        && !Stale(s.disk[c], s.now) && OldEnough(s.disk[c], s.now, minAgeMs)
  {
    var t := LoadBy(s, p, minAgeMs, order, stuck, foreign);
    if PostsInParallel(t, p) {
      var f, file :| f in t.frames && file in t.passes[p] && Posting(t.frames[f], file.save);
      var c :| c in order && file == s.disk[c];
      assert BeingSubmitted(s, c);
    }
    if c :| c in s.disk && BeingSubmitted(s, c) && !Stale(s.disk[c], s.now) && OldEnough(s.disk[c], s.now, minAgeMs) {
      LoadedExactly(s, minAgeMs, order, c);
      var f :| f in s.frames && Posting(s.frames[f], s.disk[c].save);
      assert f in t.frames && s.disk[c] in t.passes[p];
    }
  }

  /** The minimum age of the periodic passes protects from that, in whatever process they run. */
  lemma FlushAgeIsEnough(s: Transport, p: PassId, minAgeMs: nat, order: seq<CommandId>, stuck: set<CommandId>,
      foreign: bool)
    requires Inv(s) && Listing(s, order) && minAgeMs >= PENDING_RESULT_MIN_RETRY_AGE_MS
    ensures !PostsInParallel(LoadBy(s, p, minAgeMs, order, stuck, foreign), p)
  {
    SubmitBoundBelowFlushAge();
    ParallelExactlyWhen(s, p, minAgeMs, order, stuck, foreign);
    forall c | c in s.disk && BeingSubmitted(s, c) ensures !OldEnough(s.disk[c], s.now, minAgeMs) {
      var f :| f in s.frames && Posting(s.frames[f], s.disk[c].save);
      assert Consistent(s, s.frames[f]);
    }
  }

  /** One more event at the end of a run. */
  lemma {:induction false} RunSnoc(s: Transport, es: seq<Event>, e: Event)
    requires Schedule(s, es) && Enabled(Run(s, es), e)
    ensures Schedule(s, es + [e]) && Run(s, es + [e]) == Step(Run(s, es), e)
    decreases |es|
  {
    if es == [] {
      assert [e][1..] == [];
    } else {
      assert (es + [e])[1..] == es[1..] + [e];
      RunSnoc(Step(s, es[0]), es[1..], e);
    }
  }

  /** A process with an empty directory. */
  function Idle(): Transport {
    Transport(false, {}, map[], map[], map[], map[], {}, 0, 0)
  }

  /**
   * A worker executes a command and submits the result; another worker on the same host starts, takes every file
   * whatever its age, and posts the same result while that submit is still outstanding.
   */
  lemma AnotherWorkerPostsInParallel(result: CommandResult) returns (es: seq<Event>)
    ensures Fresh(Idle()) && Schedule(Idle(), es)
    ensures 0 in Run(Idle(), es).passes && PostsInParallel(Run(Idle(), es), 0)
  {
    var s := Idle();
    RunSnoc(s, [], Begin(0, "c"));
    var e1 := [] + [Begin(0, "c")];
    RunSnoc(s, e1, FetchAnswered(0, Fetched(Some(7)), true));
    var e2 := e1 + [FetchAnswered(0, Fetched(Some(7)), true)];
    RunSnoc(s, e2, Executed(0, result, true));
    var e3 := e2 + [Executed(0, result, true)];
    var t := Run(s, e3);
    assert t.disk == map["c" := Saved(0, "c", result, 0, Some(7))] && 0 in t.frames && Posting(t.frames[0], 0);
    assert BeingSubmitted(t, "c") && Listing(t, ["c"]);
    RunSnoc(s, e3, LoadPass(0, 0, ["c"], {}, true));
    es := e3 + [LoadPass(0, 0, ["c"], {}, true)];
    ParallelExactlyWhen(t, 0, 0, ["c"], {}, true);
  }

  // ------------------------------------------------------------- exits

  ghost predicate EndsCall(s: Transport, e: Event, c: CommandId)
    requires Enabled(s, e)
  {
    || (e.FetchAnswered? && e.fetch.ClaimedElsewhere? && s.frames[e.frame].id == c)
    || (e.Threw? && e.conflict && s.frames[e.frame].id == c)
    || (e.SubmitAnswered? && s.frames[e.frame].id == c)
  }

  lemma {:induction false} RemovedExactlyAtExit(s: Transport, e: Event, c: CommandId)
    requires Exact(s) && Enabled(s, e) && c in s.inFlight
    ensures c !in Step(s, e).inFlight <==> EndsCall(s, e, c)
  {
    match e
    case FetchAnswered(f, answer, saveOk) => FinishRemoves(s, f, s.frames[f].id, false);
    case Threw(f, _, _, _, unlinkOk) => FinishRemoves(s, f, s.frames[f].id, unlinkOk);
    case SubmitAnswered(f, _, unlinkOk) => FinishRemoves(s, f, s.frames[f].id, unlinkOk);
    case _ =>
  }

  lemma FinishRemoves(s: Transport, f: FrameId, id: CommandId, unlinkOk: bool)
    requires f in s.frames && id == s.frames[f].id
    ensures Finish(s, f).inFlight == s.inFlight - {id} == Finish(Unlink(s, id, unlinkOk), f).inFlight
  {
  }

  lemma {:induction false} AddedExactlyAtBegin(s: Transport, e: Event, c: CommandId)
    requires Enabled(s, e) && c !in s.inFlight
    ensures c in Step(s, e).inFlight <==> e.Begin? && e.id == c && !s.draining
  {
  }

  /** Every exit of a call removes exactly its own id; a transport stop removes none; a drain admits none. */
  lemma InFlightChangesExactly(s: Transport, e: Event, c: CommandId)
    requires Exact(s) && Enabled(s, e)
    ensures c in s.inFlight ==> (c !in Step(s, e).inFlight <==> EndsCall(s, e, c))
    ensures c !in s.inFlight ==> (c in Step(s, e).inFlight <==> e.Begin? && e.id == c && !s.draining)
  {
    if c in s.inFlight { RemovedExactlyAtExit(s, e, c); } else { AddedExactlyAtBegin(s, e, c); }
  }
}
