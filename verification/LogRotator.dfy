/**
 * RotatingFileWriter in src/log-rotator.ts: appends chunks to an active file and shifts full files through numbered
 * generations. Every system call may fail, so a rotation can stop half-way.
 */
module LogRotator {
  type Chunk = c: seq<bv8> | c != [] witness [0]

  /** A file as the chunks it was written from; generation 0 is the active file, `g` is `<path>.g`. */
  type File = seq<Chunk>
  type Files = map<nat, File>

  /** `open` says that the descriptor of the active file is held. */
  datatype Writer = Writer(files: Files, open: bool, currentSize: nat)
  datatype Limits = Limits(maxBytes: nat, maxFiles: int)

  /** How writeSync ends. It may store less than it was given; the source ignores how much. */
  datatype Append = Whole | Part(bytes: nat) | Refused

  /** Which system calls of one write fail with something else than ENOENT. `rename` holds the destinations. */
  datatype Faults = Faults(open: bool, stat: bool, unlink: bool, rename: set<nat>, reopen: bool, restat: bool,
      append: Append)

  const NO_FAULTS: Faults := Faults(false, false, false, {}, false, false, Whole)

  datatype Call = Write(buffer: seq<bv8>, faults: Faults) | Close
  datatype Outcome = Written(bytes: nat) | Threw

  // --------------------------------------------------------- what the code does

  function Size(file: File): nat {
    if file == [] then 0 else Size(file[..|file| - 1]) + |file[|file| - 1]|
  }

  function Content(files: Files, g: nat): File {
    if g in files then files[g] else []
  }

  function Rename(files: Files, src: nat, dst: nat): Files {
    if src in files then (files - {src})[dst := files[src]] else files
  }

  /** The renames `<i-1>` to `<i>`, from generation `i` down to 1, up to the first that fails. */
  function Shift(files: Files, i: nat, fails: set<nat>): (Files, bool)
    decreases i
  {
    if i == 0 then (files, true)
    else if i in fails then (files, false)
    else Shift(Rename(files, i - 1, i), i - 1, fails)
  }

  function Oldest(l: Limits): nat {
    if l.maxFiles <= 0 then 0 else l.maxFiles
  }

  function Rotated(w: Writer, l: Limits, f: Faults): (Writer, bool) {
    if f.unlink then (w.(open := false), false) else
    var (files, done) := Shift(w.files - {Oldest(l)}, Oldest(l), f.rename);
    (Writer(files, false, if done then 0 else w.currentSize), done)
  }

  function Opened(w: Writer, fails: bool, statFails: bool): (Writer, bool) {
    if w.open then (w, true)
    else if fails then (w, false)
    else
      var files := w.files[0 := Content(w.files, 0)];
      (Writer(files, true, if statFails then 0 else Size(files[0])), true)
  }

  /** What of a chunk reaches the file. */
  function Kept(c: Chunk, a: Append): seq<bv8> {
    if a.Part? && a.bytes < |c| then c[..a.bytes] else c
  }

  function Piece(c: Chunk, a: Append): seq<Chunk> {
    if Kept(c, a) == [] then [] else [Kept(c, a)]
  }

  /** The size counted, and the number returned, are those of the whole chunk. */
  function Appended(w: Writer, c: Chunk, a: Append): (Writer, Outcome) {
    if a.Refused? then (w, Threw)
    else (Writer(w.files[0 := Content(w.files, 0) + Piece(c, a)], w.open, w.currentSize + |c|), Written(|c|))
  }

  predicate MustRotate(w: Writer, l: Limits, c: Chunk) {
    w.currentSize > 0 && w.currentSize + |c| > l.maxBytes
  }

  /** The writer when the chunk is about to be appended. */
  function Ready(w: Writer, l: Limits, c: Chunk, f: Faults): (Writer, bool) {
    var (entered, ok) := Opened(w, f.open, f.stat);
    if !ok then (entered, false)
    else if !MustRotate(entered, l, c) then (entered, true)
    else
      var (rotated, done) := Rotated(entered, l, f);
      if done then Opened(rotated, f.reopen, f.restat) else (rotated, false)
  }

  function WriteStep(w: Writer, l: Limits, buffer: seq<bv8>, f: Faults): (Writer, Outcome) {
    if buffer == [] then (w, Written(0)) else
    var (ready, ok) := Ready(w, l, buffer, f);
    if ok then Appended(ready, buffer, f.append) else (ready, Threw)
  }

  function CallStep(w: Writer, l: Limits, call: Call): Writer {
    match call
    case Write(buffer, f) => WriteStep(w, l, buffer, f).0
    case Close => w.(open := false)
  }

  function Run(w: Writer, l: Limits, calls: seq<Call>): Writer {
    if calls == [] then w else CallStep(Run(w, l, calls[..|calls| - 1]), l, calls[|calls| - 1])
  }

  // ------------------------------------------------ the stream, and what of it is stored

  predicate Returns(w: Writer, l: Limits, call: Call) {
    call.Write? && call.buffer != [] && WriteStep(w, l, call.buffer, call.faults).1.Written?
  }

  /** What one call adds to the stream: what was stored of its buffer, when the call did not throw. */
  function Lands(w: Writer, l: Limits, call: Call): seq<Chunk> {
    if Returns(w, l, call) then Piece(call.buffer, call.faults.append) else []
  }

  /** What one call claims to have written. */
  function Claims(w: Writer, l: Limits, call: Call): seq<Chunk> {
    if Returns(w, l, call) then [call.buffer] else []
  }

  /** Everything the calls of a run claim to have written, in order. */
  function Claimed(w: Writer, l: Limits, calls: seq<Call>): seq<Chunk> {
    if calls == [] then [] else
    var before := calls[..|calls| - 1];
    Claimed(w, l, before) + Claims(Run(w, l, before), l, calls[|calls| - 1])
  }

  /** Everything they really stored. */
  function Stream(w: Writer, l: Limits, calls: seq<Call>): seq<Chunk> {
    if calls == [] then [] else
    var before := calls[..|calls| - 1];
    Stream(w, l, before) + Lands(Run(w, l, before), l, calls[|calls| - 1])
  }

  function Here(files: Files, g: nat): seq<File> {
    if Content(files, g) == [] then [] else [Content(files, g)]
  }

  /** The non-empty files of generation `n` down to the active one. */
  function Pieces(files: Files, n: nat): seq<File> {
    Here(files, n) + if n == 0 then [] else Pieces(files, n - 1)
  }

  function Below(files: Files, n: nat): seq<File> {
    if n == 0 then [] else Pieces(files, n - 1)
  }

  function Flat(pieces: seq<File>): seq<Chunk> {
    if pieces == [] then [] else pieces[0] + Flat(pieces[1..])
  }

  /** Those files, read one after the other. */
  function Stored(files: Files, n: nat): seq<Chunk> {
    Flat(Pieces(files, n))
  }

  lemma {:induction false} FlatConcat(a: seq<File>, b: seq<File>)
    ensures Flat(a + b) == Flat(a) + Flat(b)
  {
    if a == [] {
      assert a + b == b;
    } else {
      assert (a + b)[1..] == a[1..] + b;
      FlatConcat(a[1..], b);
    }
  }

  lemma {:induction false} PiecesAreLocal(a: Files, b: Files, n: nat)
    requires forall g :: 0 <= g <= n ==> Content(a, g) == Content(b, g)
    ensures Pieces(a, n) == Pieces(b, n)
  {
    if n > 0 { PiecesAreLocal(a, b, n - 1); }
  }

  /** Moving a generation into the free place above it keeps every piece in its place. */
  lemma {:induction false} RenameKeepsPieces(files: Files, i: nat, n: nat)
    requires 0 < i <= n && i !in files
    ensures Pieces(Rename(files, i - 1, i), n) == Pieces(files, n)
  {
    if i < n {
      RenameKeepsPieces(files, i, n - 1);
      assert Here(Rename(files, i - 1, i), n) == Here(files, n);
    } else {
      RenameIntoTop(files, i);
    }
  }

  lemma RenameIntoTop(files: Files, i: nat)
    requires 0 < i && i !in files
    ensures Pieces(Rename(files, i - 1, i), i) == Pieces(files, i)
  {
    var after := Rename(files, i - 1, i);
    RenameContents(files, i);
    TopTwo(files, i);
    TopTwo(after, i);
    BelowIsLocal(files, after, i - 1);
  }

  lemma RenameContents(files: Files, i: nat)
    requires 0 < i && i !in files
    ensures var after := Rename(files, i - 1, i);
            && Here(after, i) + Here(after, i - 1) == Here(files, i) + Here(files, i - 1)
            && forall g :: 0 <= g < i - 1 ==> Content(after, g) == Content(files, g)
  {
  }

  lemma BelowIsLocal(a: Files, b: Files, n: nat)
    requires forall g :: 0 <= g < n ==> Content(a, g) == Content(b, g)
    ensures Below(a, n) == Below(b, n)
  {
    if n > 0 { PiecesAreLocal(a, b, n - 1); }
  }

  lemma TopTwo(files: Files, i: nat)
    requires 0 < i
    ensures Pieces(files, i) == (Here(files, i) + Here(files, i - 1)) + Below(files, i - 1)
  {
    Regroup(Here(files, i), Here(files, i - 1), Below(files, i - 1));
  }

  lemma Regroup<T>(a: seq<T>, b: seq<T>, c: seq<T>)
    ensures (a + b) + c == a + (b + c)
  {
  }

  /**
   * The shift, wherever it stops, keeps the pieces and the generations above it; it removes the active file
   * only by completing. The place it renames into is always free.
   */
  lemma {:induction false} ShiftKeepsPieces(files: Files, i: nat, fails: set<nat>, n: nat)
    requires i <= n && i !in files
    ensures Pieces(Shift(files, i, fails).0, n) == Pieces(files, n)
    ensures forall g :: g > i ==> Content(Shift(files, i, fails).0, g) == Content(files, g)
    ensures if Shift(files, i, fails).1 then 0 !in Shift(files, i, fails).0
            else Content(Shift(files, i, fails).0, 0) == Content(files, 0)
    decreases i
  {
    if i > 0 && i !in fails {
      RenameKeepsPieces(files, i, n);
      ShiftKeepsPieces(Rename(files, i - 1, i), i - 1, fails, n);
    }
  }

  lemma WithoutTheTop(files: Files, n: nat)
    ensures Pieces(files, n) == Here(files, n) + Pieces(files - {n}, n)
  {
    BelowIsLocal(files, files - {n}, n);
    assert Here(files - {n}, n) == [];
  }

  /** A rotation, also one that stops half-way, drops nothing or exactly the oldest generation. */
  lemma RotationDropsOnlyTheOldest(w: Writer, l: Limits, f: Faults)
    ensures var n := Oldest(l);
            var (after, done) := Rotated(w, l, f);
            && Pieces(w.files, n) == (if f.unlink then [] else Here(w.files, n)) + Pieces(after.files, n)
            && (forall g :: g > n ==> Content(after.files, g) == Content(w.files, g))
            && (done ==> 0 !in after.files)
            && (!done ==> Content(after.files, 0) == Content(w.files, 0))
  {
    if !f.unlink {
      var n := Oldest(l);
      WithoutTheTop(w.files, n);
      ShiftKeepsPieces(w.files - {n}, n, f.rename, n);
    }
  }

  lemma OpeningKeepsPieces(w: Writer, fails: bool, statFails: bool, n: nat)
    ensures Pieces(Opened(w, fails, statFails).0.files, n) == Pieces(w.files, n)
  {
    PiecesAreLocal(Opened(w, fails, statFails).0.files, w.files, n);
  }

  /** A chunk goes to the end of the last piece, or starts one. */
  function WithChunk(pieces: seq<File>, starts: bool, c: Chunk): seq<File> {
    if starts || pieces == [] then pieces + [[c]]
    else pieces[..|pieces| - 1] + [pieces[|pieces| - 1] + [c]]
  }

  lemma {:induction false} AppendingExtendsPieces(files: Files, c: Chunk, n: nat)
    ensures Pieces(files[0 := Content(files, 0) + [c]], n) == WithChunk(Pieces(files, n), Content(files, 0) == [], c)
    ensures Content(files, 0) != [] ==>
        Pieces(files, n) != [] && Pieces(files, n)[|Pieces(files, n)| - 1] == Content(files, 0)
  {
    if n > 0 {
      AppendingExtendsPieces(files, c, n - 1);
      WithChunkAbove(Here(files, n), Pieces(files, n - 1), Content(files, 0) == [], c);
      LastOfConcat(Here(files, n), Pieces(files, n - 1));
    } else {
      NoneBelow(files);
      NoneBelow(files[0 := Content(files, 0) + [c]]);
      assert [] + [c] == [c];
    }
  }

  lemma NoneBelow(files: Files)
    ensures Pieces(files, 0) == Here(files, 0)
  {
  }

  lemma LastOfConcat(a: seq<File>, b: seq<File>)
    ensures b != [] ==> a + b != [] && (a + b)[|a + b| - 1] == b[|b| - 1]
  {
  }

  lemma WithChunkAbove(a: seq<File>, b: seq<File>, starts: bool, c: Chunk)
    requires starts || b != []
    ensures WithChunk(a + b, starts, c) == a + WithChunk(b, starts, c)
  {
  }

  lemma FlatWithChunk(pieces: seq<File>, starts: bool, c: Chunk)
    ensures Flat(WithChunk(pieces, starts, c)) == Flat(pieces) + [c]
  {
    if starts || pieces == [] {
      FlatConcat(pieces, [[c]]);
    } else {
      var k := |pieces| - 1;
      FlatConcat(pieces[..k], [pieces[k] + [c]]);
      FlatConcat(pieces[..k], [pieces[k]]);
      assert pieces == pieces[..k] + [pieces[k]];
    }
  }

  /** What a write has dropped when it is about to append: nothing or the oldest generation. */
  lemma ReadyDropsOnlyTheOldest(w: Writer, l: Limits, c: Chunk, f: Faults) returns (dropped: seq<File>)
    ensures dropped == [] || (MustRotate(Opened(w, f.open, f.stat).0, l, c)
        && dropped == Here(Opened(w, f.open, f.stat).0.files, Oldest(l)))
    ensures Pieces(w.files, Oldest(l)) == dropped + Pieces(Ready(w, l, c, f).0.files, Oldest(l))
  {
    var n := Oldest(l);
    var (entered, ok) := Opened(w, f.open, f.stat);
    OpeningKeepsPieces(w, f.open, f.stat, n);
    dropped := [];
    if ok && MustRotate(entered, l, c) {
      RotationDropsOnlyTheOldest(entered, l, f);
      var (rotated, done) := Rotated(entered, l, f);
      OpeningKeepsPieces(rotated, f.reopen, f.restat, n);
      dropped := if f.unlink then [] else Here(entered.files, n);
    }
  }

  /** `a` is what is left of `b` when a prefix of it is dropped. */
  ghost predicate Suffix(a: seq<Chunk>, b: seq<Chunk>) {
    |a| <= |b| && b[|b| - |a|..] == a
  }

  lemma SuffixOfExtension(a: seq<Chunk>, dropped: seq<Chunk>, b: seq<Chunk>, stream: seq<Chunk>, more: seq<Chunk>)
    requires Suffix(a, stream) && a == dropped + b
    ensures Suffix(b + more, stream + more)
  {
    assert stream == stream[..|stream| - |a|] + a;
    assert stream + more == (stream[..|stream| - |a|] + dropped) + (b + more);
  }

  lemma ReadyKeepsSuffix(w: Writer, l: Limits, c: Chunk, f: Faults, stream: seq<Chunk>)
    requires Suffix(Stored(w.files, Oldest(l)), stream)
    ensures Suffix(Stored(Ready(w, l, c, f).0.files, Oldest(l)), stream)
  {
    var dropped := ReadyDropsOnlyTheOldest(w, l, c, f);
    var left := Pieces(Ready(w, l, c, f).0.files, Oldest(l));
    FlatConcat(dropped, left);
    SuffixOfExtension(Stored(w.files, Oldest(l)), Flat(dropped), Flat(left), stream, []);
    assert Flat(left) + [] == Flat(left) && stream + [] == stream;
  }

  lemma AppendingExtendsStream(files: Files, c: Chunk, a: Append, n: nat, stream: seq<Chunk>)
    requires Suffix(Stored(files, n), stream)
    ensures Suffix(Stored(files[0 := Content(files, 0) + Piece(c, a)], n), stream + Piece(c, a))
  {
    if Kept(c, a) == [] {
      assert Content(files, 0) + [] == Content(files, 0) && stream + [] == stream;
      PiecesAreLocal(files[0 := Content(files, 0)], files, n);
    } else {
      var kept: Chunk := Kept(c, a);
      AppendingExtendsPieces(files, kept, n);
      FlatWithChunk(Pieces(files, n), Content(files, 0) == [], kept);
      SuffixOfExtension(Stored(files, n), [], Stored(files, n), stream, [kept]);
    }
  }

  lemma WriteExtendsStream(w: Writer, l: Limits, c: Chunk, f: Faults, stream: seq<Chunk>)
    requires Suffix(Stored(w.files, Oldest(l)), stream)
    ensures Suffix(Stored(WriteStep(w, l, c, f).0.files, Oldest(l)), stream + Lands(w, l, Write(c, f)))
  {
    var (ready, ok) := Ready(w, l, c, f);
    ReadyKeepsSuffix(w, l, c, f, stream);
    WriteLands(w, l, c, f);
    AppendingExtendsStream(ready.files, c, f.append, Oldest(l), stream);
    assert stream + [] == stream;
  }

  lemma WriteLands(w: Writer, l: Limits, c: Chunk, f: Faults)
    ensures var (ready, ok) := Ready(w, l, c, f);
            var after := WriteStep(w, l, c, f).0.files;
            if ok && !f.append.Refused?
            then after == ready.files[0 := Content(ready.files, 0) + Piece(c, f.append)]
                 && Lands(w, l, Write(c, f)) == Piece(c, f.append)
            else after == ready.files && Lands(w, l, Write(c, f)) == []
  {
  }

  lemma StepExtendsStream(w: Writer, l: Limits, call: Call, stream: seq<Chunk>)
    requires Suffix(Stored(w.files, Oldest(l)), stream)
    ensures Suffix(Stored(CallStep(w, l, call).files, Oldest(l)), stream + Lands(w, l, call))
  {
    if call.Write? && call.buffer != [] {
      WriteExtendsStream(w, l, call.buffer, call.faults, stream);
    } else {
      assert stream + [] == stream;
    }
  }

  /**
   * After any calls, with any failures, generations N to 1 and then the active file hold a suffix of everything that
   * was there before and was stored since: in order, nothing twice, nothing missing in between.
   */
  lemma {:induction false} StoredIsASuffixOfTheStream(w: Writer, l: Limits, calls: seq<Call>)
    ensures Suffix(Stored(Run(w, l, calls).files, Oldest(l)), Stored(w.files, Oldest(l)) + Stream(w, l, calls))
  {
    var start := Stored(w.files, Oldest(l));
    if calls == [] {
      assert start + [] == start;
    } else {
      var before := calls[..|calls| - 1];
      StoredIsASuffixOfTheStream(w, l, before);
      StepExtendsStream(Run(w, l, before), l, calls[|calls| - 1], start + Stream(w, l, before));
      Regroup(start, Stream(w, l, before), Lands(Run(w, l, before), l, calls[|calls| - 1]));
    }
  }

  // ------------------------------------------------------------ whole chunks

  /** A call returned although only part of its buffer was stored. */
  predicate Short(w: Writer, l: Limits, call: Call) {
    Returns(w, l, call) && Kept(call.buffer, call.faults.append) != call.buffer
  }

  lemma SizeOfSnoc(file: File, c: Chunk)
    ensures Size(file + [c]) == Size(file) + |c|
  {
    assert (file + [c])[..|file|] == file;
  }

  lemma SizeOfPiece(file: File, c: Chunk, a: Append)
    ensures Size(file + Piece(c, a)) == Size(file) + |Kept(c, a)|
  {
    if Kept(c, a) == [] {
      assert file + [] == file;
    } else {
      SizeOfSnoc(file, Kept(c, a));
    }
  }

  /** Some call of the run was short. */
  predicate AnyShort(w: Writer, l: Limits, calls: seq<Call>) {
    if calls == [] then false else
    var k := |calls| - 1;
    AnyShort(w, l, calls[..k]) || Short(Run(w, l, calls[..k]), l, calls[k])
  }

  lemma SizesOfOneCall(w: Writer, l: Limits, call: Call, stored: seq<Chunk>, claimed: seq<Chunk>)
    ensures Size(claimed + Claims(w, l, call)) - Size(stored + Lands(w, l, call))
            == Size(claimed) - Size(stored)
               + if Short(w, l, call) then |call.buffer| - |Kept(call.buffer, call.faults.append)| else 0
  {
    if Returns(w, l, call) {
      SizeOfSnoc(claimed, call.buffer);
      SizeOfPiece(stored, call.buffer, call.faults.append);
    } else {
      assert claimed + [] == claimed && stored + [] == stored;
    }
  }

  lemma NotShortLandsWhole(w: Writer, l: Limits, call: Call)
    requires !Short(w, l, call)
    ensures Lands(w, l, call) == Claims(w, l, call)
  {
  }

  function ClaimedBytes(w: Writer, l: Limits, calls: seq<Call>): nat {
    Size(Claimed(w, l, calls))
  }

  function StoredBytes(w: Writer, l: Limits, calls: seq<Call>): nat {
    Size(Stream(w, l, calls))
  }

  lemma BytesOfOneCall(w: Writer, l: Limits, calls: seq<Call>)
    requires calls != []
    ensures var k := |calls| - 1;
            var v, call := Run(w, l, calls[..k]), calls[k];
            ClaimedBytes(w, l, calls) - StoredBytes(w, l, calls)
            == ClaimedBytes(w, l, calls[..k]) - StoredBytes(w, l, calls[..k])
               + if Short(v, l, call) then |call.buffer| - |Kept(call.buffer, call.faults.append)| else 0
  {
    var k := |calls| - 1;
    SizesOfOneCall(Run(w, l, calls[..k]), l, calls[k], Stream(w, l, calls[..k]), Claimed(w, l, calls[..k]));
  }

  lemma {:induction false} StreamSizes(w: Writer, l: Limits, calls: seq<Call>)
    ensures StoredBytes(w, l, calls) <= ClaimedBytes(w, l, calls)
    ensures AnyShort(w, l, calls) ==> StoredBytes(w, l, calls) < ClaimedBytes(w, l, calls)
  {
    if calls == [] {
      assert Stream(w, l, calls) == Claimed(w, l, calls);
    } else {
      StreamSizes(w, l, calls[..|calls| - 1]);
      BytesOfOneCall(w, l, calls);
    }
  }

  lemma {:induction false} NoneShortIsWhole(w: Writer, l: Limits, calls: seq<Call>)
    requires !AnyShort(w, l, calls)
    ensures Stream(w, l, calls) == Claimed(w, l, calls)
  {
    if calls != [] {
      var k := |calls| - 1;
      NoneShortIsWhole(w, l, calls[..k]);
      NotShortLandsWhole(Run(w, l, calls[..k]), l, calls[k]);
    }
  }

  /** The stored stream is what the calls claim, in whole chunks, exactly when no call that returned was short. */
  lemma WholeChunksExactlyWhen(w: Writer, l: Limits, calls: seq<Call>)
    ensures Stream(w, l, calls) == Claimed(w, l, calls) <==> !AnyShort(w, l, calls)
  {
    if AnyShort(w, l, calls) { StreamSizes(w, l, calls); } else { NoneShortIsWhole(w, l, calls); }
  }

  /** A case of it: the second half of a chunk is lost, and the call returns its whole length. */
  lemma HalfAChunkIsLost(b: bv8)
    ensures var (w, outcome) := WriteStep(Writer(map[], false, 0), Limits(9, 5), [b, b], NO_FAULTS.(append := Part(1)));
            outcome == Written(2) && w.files == map[0 := [[b]]] && w.currentSize == 2
  {
    var c: Chunk := [b, b];
    assert Kept(c, Part(1)) == [b] && [] + Piece(c, Part(1)) == [[b]];
  }

  // ------------------------------------------------------------ sizes of files

  predicate Fits(file: File, l: Limits) {
    Size(file) <= l.maxBytes || |file| <= 1
  }

  lemma {:induction false} NonEmptyHasSize(file: File)
    ensures |file| <= Size(file)
  {
    if file != [] { NonEmptyHasSize(file[..|file| - 1]); }
  }

  /** What the writer takes the size of the active file to be, when a write decides whether to rotate. */
  function Believed(w: Writer, f: Faults): nat {
    if w.open then w.currentSize else if f.stat then 0 else Size(Content(w.files, 0))
  }

  /** The active file a write appends to: the one there was, unless the writer rotated. */
  lemma BaseOfWrite(w: Writer, l: Limits, c: Chunk, f: Faults)
    requires Ready(w, l, c, f).1
    ensures Content(Ready(w, l, c, f).0.files, 0)
            == if Believed(w, f) > 0 && Believed(w, f) + |c| > l.maxBytes then [] else Content(w.files, 0)
  {
    var (entered, ok) := Opened(w, f.open, f.stat);
    if MustRotate(entered, l, c) { RotationDropsOnlyTheOldest(entered, l, f); }
  }

  /**
   * A write, on a descriptor held or just opened, leaves the file too long exactly when the writer did not see fit to
   * rotate although, in truth, what is stored of the chunk does not fit behind what is there.
   */
  lemma OverfullExactlyWhen(w: Writer, l: Limits, c: Chunk, f: Faults)
    requires WriteStep(w, l, c, f).1.Written?
    ensures var active, believed, stored := Content(w.files, 0), Believed(w, f), |Kept(c, f.append)|;
            !Fits(WriteStep(w, l, c, f).0.files[0], l) <==>
              && (believed == 0 || believed + |c| <= l.maxBytes)
              && Size(active) + stored > l.maxBytes
              && (if stored > 0 then active != [] else |active| > 1)
  {
    BaseOfWrite(w, l, c, f);
    var base := Content(Ready(w, l, c, f).0.files, 0);
    SizeOfPiece(base, c, f.append);
    assert WriteStep(w, l, c, f).0.files[0] == base + Piece(c, f.append);
  }

  /** One byte on disk, a limit of one byte, a size that cannot be taken, and one more byte. */
  lemma OverfullAfterFailedStat(b: bv8)
    ensures var (w, outcome) :=
        WriteStep(Writer(map[0 := [[b]]], false, 0), Limits(1, 5), [b], NO_FAULTS.(stat := true));
            outcome == Written(1) && w.files == map[0 := [[b], [b]]] && !Fits(w.files[0], Limits(1, 5))
  {
    var c: Chunk := [b];
    SizeOfSnoc([], c);
    SizeOfSnoc([c], c);
    assert [] + [c] == [c] && [c] + [c] == [c, c];
  }

  /** The failed size lookup did no harm yet; a later write without any fault, on the same descriptor, does. */
  lemma OverfullLater(b: bv8)
    ensures var l := Limits(4, 5);
            var w1 := WriteStep(Writer(map[0 := [[b, b]]], false, 0), l, [b], NO_FAULTS.(stat := true)).0;
            var (w2, outcome) := WriteStep(w1, l, [b, b], NO_FAULTS);
            Fits(w1.files[0], l) && outcome == Written(2) && !Fits(w2.files[0], l)
  {
    var l := Limits(4, 5);
    var c1: Chunk, c2: Chunk := [b], [b, b];
    var w0 := Writer(map[0 := [c2]], false, 0);
    var w1 := WriteStep(w0, l, c1, NO_FAULTS.(stat := true)).0;
    SizeOfSnoc([], c2);
    SizeOfSnoc([c2], c1);
    assert [] + [c2] == [c2] && w1 == Writer(map[0 := [c2] + [c1]], true, 1);
    OverfullExactlyWhen(w1, l, c2, NO_FAULTS);
  }

  // ---------------------------------------------- when a run first overfills a file

  /** The bytes of the active file that the writer does not count, because their lookup failed at the opening. */
  function Unseen(w: Writer, l: Limits, calls: seq<Call>): nat {
    if calls == [] then 0 else
    var k := |calls| - 1;
    UnseenAfter(Run(w, l, calls[..k]), l, calls[k], Unseen(w, l, calls[..k]))
  }

  function UnseenAfter(w: Writer, l: Limits, call: Call, unseen: nat): nat {
    if call.Close? then 0
    else if call.buffer == [] then unseen
    else UnseenAtWrite(w, l, call.buffer, call.faults, unseen)
  }

  function UnseenAtWrite(w: Writer, l: Limits, c: Chunk, f: Faults, unseen: nat): nat {
    var (entered, ok) := Opened(w, f.open, f.stat);
    if !ok || MustRotate(entered, l, c) then 0
    else if w.open then unseen
    else if f.stat then Size(Content(w.files, 0)) else 0
  }

  /** The bytes it counts although they were not stored: the rest of short writes since the opening. */
  function Unstored(w: Writer, l: Limits, calls: seq<Call>): nat {
    if calls == [] then 0 else
    var k := |calls| - 1;
    UnstoredAfter(Run(w, l, calls[..k]), l, calls[k], Unstored(w, l, calls[..k]))
  }

  function UnstoredAfter(w: Writer, l: Limits, call: Call, unstored: nat): nat {
    if call.Close? then 0
    else if call.buffer == [] then unstored
    else
      var missing := |call.buffer| - |Kept(call.buffer, call.faults.append)|;
      UnstoredBefore(w, l, call.buffer, call.faults, unstored) + if Returns(w, l, call) then missing else 0
  }

  function UnstoredBefore(w: Writer, l: Limits, c: Chunk, f: Faults, unstored: nat): nat {
    var (entered, ok) := Opened(w, f.open, f.stat);
    if !ok || MustRotate(entered, l, c) || !w.open then 0 else unstored
  }

  /** While the descriptor is held, the size counted is the true one but for these two. */
  predicate Balanced(w: Writer, unseen: nat, unstored: nat) {
    w.open ==> 0 in w.files && w.currentSize + unseen == Size(w.files[0]) + unstored && unseen <= Size(w.files[0])
  }

  lemma WriteBalanced(w: Writer, l: Limits, c: Chunk, f: Faults, unseen: nat, unstored: nat)
    requires Balanced(w, unseen, unstored)
    ensures Balanced(Ready(w, l, c, f).0, UnseenAtWrite(w, l, c, f, unseen), UnstoredBefore(w, l, c, f, unstored))
    ensures Ready(w, l, c, f).1 ==> Ready(w, l, c, f).0.open
  {
    var (entered, ok) := Opened(w, f.open, f.stat);
    if ok && MustRotate(entered, l, c) { RotationDropsOnlyTheOldest(entered, l, f); }
  }

  lemma StepBalanced(w: Writer, l: Limits, call: Call, unseen: nat, unstored: nat)
    requires Balanced(w, unseen, unstored)
    ensures Balanced(CallStep(w, l, call), UnseenAfter(w, l, call, unseen), UnstoredAfter(w, l, call, unstored))
  {
    if call.Write? && call.buffer != [] {
      var c, f := call.buffer, call.faults;
      WriteBalanced(w, l, c, f, unseen, unstored);
      SizeOfPiece(Content(Ready(w, l, c, f).0.files, 0), c, f.append);
    }
  }

  lemma {:induction false} RunBalanced(w: Writer, l: Limits, calls: seq<Call>)
    requires !w.open
    ensures Balanced(Run(w, l, calls), Unseen(w, l, calls), Unstored(w, l, calls))
  {
    if calls != [] {
      var k := |calls| - 1;
      RunBalanced(w, l, calls[..k]);
      StepBalanced(Run(w, l, calls[..k]), l, calls[k], Unseen(w, l, calls[..k]), Unstored(w, l, calls[..k]));
    }
  }

  predicate Overfills(w: Writer, l: Limits, call: Call) {
    Returns(w, l, call) && !Fits(Content(CallStep(w, l, call).files, 0), l)
  }

  /** Up to `n`, no call of the run has overfilled the active file. */
  ghost predicate NoneOverfilled(w: Writer, l: Limits, calls: seq<Call>, n: nat)
    requires n <= |calls|
  {
    forall k :: 0 <= k < n ==> !Overfills(Run(w, l, calls[..k]), l, calls[k])
  }

  /** The active file when a write is about to append or has thrown before: what it was, or rotated away. */
  lemma ReadyContent(w: Writer, l: Limits, c: Chunk, f: Faults)
    ensures Content(Ready(w, l, c, f).0.files, 0) in {Content(w.files, 0), []}
  {
    var (entered, ok) := Opened(w, f.open, f.stat);
    if ok && MustRotate(entered, l, c) { RotationDropsOnlyTheOldest(entered, l, f); }
  }

  lemma ThrowingKeepsFit(w: Writer, l: Limits, call: Call)
    requires Fits(Content(w.files, 0), l) && !Overfills(w, l, call)
    ensures Fits(Content(CallStep(w, l, call).files, 0), l)
  {
    if call.Write? && call.buffer != [] && !Returns(w, l, call) {
      ReadyContent(w, l, call.buffer, call.faults);
      WriteLands(w, l, call.buffer, call.faults);
    }
  }

  lemma {:induction false} ActiveFits(w: Writer, l: Limits, calls: seq<Call>, n: nat)
    requires n <= |calls| && Fits(Content(w.files, 0), l) && NoneOverfilled(w, l, calls, n)
    ensures Fits(Content(Run(w, l, calls[..n]).files, 0), l)
  {
    if n > 0 {
      ActiveFits(w, l, calls, n - 1);
      assert calls[..n][..n - 1] == calls[..n - 1];
      ThrowingKeepsFit(Run(w, l, calls[..n - 1]), l, calls[n - 1]);
    }
  }

  /**
   * What makes a write overfill the file, in terms of the calls before it: the descriptor it uses was opened with a
   * failed lookup over `unseen` bytes, what was counted since makes no rotation due, and what is really there leaves
   * too little room.
   */
  predicate Misjudges(w: Writer, l: Limits, calls: seq<Call>, k: nat)
    requires k < |calls|
  {
    var v, call := Run(w, l, calls[..k]), calls[k];
    && Returns(v, l, call)
    && Misfits(v, l, call.buffer, call.faults, Unseen(w, l, calls[..k]), Unstored(w, l, calls[..k]))
  }

  predicate Misfits(w: Writer, l: Limits, c: Chunk, f: Faults, unseenBefore: nat, unstoredBefore: nat) {
    var counted := Believed(w, f);
    var unseen := UnseenAtWrite(w, l, c, f, unseenBefore);
    var unstored := UnstoredBefore(w, l, c, f, unstoredBefore);
    && (counted == 0 || counted + |c| <= l.maxBytes)
    && unseen > 0 && |Kept(c, f.append)| > 0
    && counted + unseen + |Kept(c, f.append)| > l.maxBytes + unstored
  }

  lemma OverfillsExactlyWhenMisfits(w: Writer, l: Limits, c: Chunk, f: Faults, unseen: nat, unstored: nat)
    requires Returns(w, l, Write(c, f)) && Balanced(w, unseen, unstored) && Fits(Content(w.files, 0), l)
    ensures Overfills(w, l, Write(c, f)) <==> Misfits(w, l, c, f, unseen, unstored)
  {
    OverfullExactlyWhen(w, l, c, f);
    NonEmptyHasSize(Content(w.files, 0));
  }

  /** The first call of a run from a closed writer that overfills the active file is the first that misjudges it. */
  lemma FirstOverfillExactlyWhen(w: Writer, l: Limits, calls: seq<Call>, k: nat)
    requires !w.open && Fits(Content(w.files, 0), l) && k < |calls| && NoneOverfilled(w, l, calls, k)
    ensures Overfills(Run(w, l, calls[..k]), l, calls[k]) <==> Misjudges(w, l, calls, k)
  {
    var v, call := Run(w, l, calls[..k]), calls[k];
    if Returns(v, l, call) {
      RunBalanced(w, l, calls[..k]);
      ActiveFits(w, l, calls, k);
      assert call == Write(call.buffer, call.faults);
      OverfillsExactlyWhenMisfits(v, l, call.buffer, call.faults, Unseen(w, l, calls[..k]), Unstored(w, l, calls[..k]));
    }
  }

  /** A run from a closed writer overfills a file exactly when some call of it misjudges one. */
  lemma RunOverfillsExactlyWhen(w: Writer, l: Limits, calls: seq<Call>)
    requires !w.open && Fits(Content(w.files, 0), l)
    ensures NoneOverfilled(w, l, calls, |calls|) <==> forall k :: 0 <= k < |calls| ==> !Misjudges(w, l, calls, k)
  {
    var k := FirstOverfill(w, l, calls, |calls|);
    if k < |calls| {
      FirstOverfillExactlyWhen(w, l, calls, k);
    } else {
      forall j | 0 <= j < |calls| ensures !Misjudges(w, l, calls, j) {
        FirstOverfillExactlyWhen(w, l, calls, j);
      }
    }
  }

  lemma FirstOverfill(w: Writer, l: Limits, calls: seq<Call>, n: nat) returns (k: nat)
    requires n <= |calls|
    ensures k <= n && NoneOverfilled(w, l, calls, k)
    ensures k < n ==> Overfills(Run(w, l, calls[..k]), l, calls[k])
  {
    var bad := (j: nat) => j < |calls| && Overfills(Run(w, l, calls[..j]), l, calls[j]);
    k := Least(bad, n);
    forall j | 0 <= j < k ensures !Overfills(Run(w, l, calls[..j]), l, calls[j]) {
      assert !bad(j);
    }
  }

  lemma {:induction false} Least(bad: nat -> bool, n: nat) returns (k: nat)
    ensures k <= n && (k < n ==> bad(k))
    ensures forall j: nat :: j < k ==> !bad(j)
  {
    k := n;
    if n > 0 {
      k := Least(bad, n - 1);
      if k == n - 1 && !bad(k) { k := n; }
    }
  }

  // --------------------------------------------------- every file, not just the active one

  /** Every file of `now` fits or is, unchanged, a file of `was`. */
  ghost predicate OnlyOldOnesOverfull(was: Files, now: Files, l: Limits) {
    forall g :: g in now ==> Fits(now[g], l) || now[g] in was.Values
  }

  lemma {:induction false} ShiftMovesFiles(files: Files, i: nat, fails: set<nat>)
    ensures Shift(files, i, fails).0.Values <= files.Values
    decreases i
  {
    if i > 0 && i !in fails { ShiftMovesFiles(Rename(files, i - 1, i), i - 1, fails); }
  }

  lemma RotatedMovesFiles(w: Writer, l: Limits, f: Faults)
    ensures Rotated(w, l, f).0.files.Values <= w.files.Values
  {
    ShiftMovesFiles(w.files - {Oldest(l)}, Oldest(l), f.rename);
    assert (w.files - {Oldest(l)}).Values <= w.files.Values;
  }

  lemma OnlyOldTransitive(a: Files, b: Files, c: Files, l: Limits)
    requires OnlyOldOnesOverfull(a, b, l) && OnlyOldOnesOverfull(b, c, l)
    ensures OnlyOldOnesOverfull(a, c, l)
  {
    forall g | g in c ensures Fits(c[g], l) || c[g] in a.Values {
      if !Fits(c[g], l) { var h :| h in b && b[h] == c[g]; }
    }
  }

  lemma OpeningAddsNoOverfull(w: Writer, fails: bool, statFails: bool, l: Limits)
    ensures OnlyOldOnesOverfull(w.files, Opened(w, fails, statFails).0.files, l)
  {
    var after := Opened(w, fails, statFails).0.files;
    forall g | g in after ensures Fits(after[g], l) || after[g] in w.files.Values {
      if g in w.files { assert after[g] == w.files[g] && w.files[g] in w.files.Values; }
    }
  }

  lemma RotatingAddsNoOverfull(w: Writer, l: Limits, f: Faults)
    ensures OnlyOldOnesOverfull(w.files, Rotated(w, l, f).0.files, l)
  {
    RotatedMovesFiles(w, l, f);
    var after := Rotated(w, l, f).0.files;
    forall g | g in after ensures after[g] in w.files.Values { assert after[g] in after.Values; }
  }

  lemma ReadyAddsNoOverfull(w: Writer, l: Limits, c: Chunk, f: Faults)
    ensures OnlyOldOnesOverfull(w.files, Ready(w, l, c, f).0.files, l)
  {
    var (entered, ok) := Opened(w, f.open, f.stat);
    OpeningAddsNoOverfull(w, f.open, f.stat, l);
    if ok && MustRotate(entered, l, c) {
      var rotated := Rotated(entered, l, f).0;
      RotatingAddsNoOverfull(entered, l, f);
      OpeningAddsNoOverfull(rotated, f.reopen, f.restat, l);
      OnlyOldTransitive(w.files, entered.files, rotated.files, l);
      OnlyOldTransitive(w.files, rotated.files, Ready(w, l, c, f).0.files, l);
    }
  }

  lemma StepFits(w: Writer, l: Limits, call: Call)
    requires !Overfills(w, l, call)
    ensures OnlyOldOnesOverfull(w.files, CallStep(w, l, call).files, l)
  {
    if call.Write? && call.buffer != [] { ReadyAddsNoOverfull(w, l, call.buffer, call.faults); }
  }

  /**
   * Unless some call misjudges the active file, every file the writer started or appended to is at most `maxBytes`
   * long or a single chunk, however the generations were shifted since.
   */
  lemma WrittenFilesFit(w: Writer, l: Limits, calls: seq<Call>)
    requires !w.open && Fits(Content(w.files, 0), l) && forall k :: 0 <= k < |calls| ==> !Misjudges(w, l, calls, k)
    ensures OnlyOldOnesOverfull(w.files, Run(w, l, calls).files, l)
  {
    RunOverfillsExactlyWhen(w, l, calls);
    assert calls[..|calls|] == calls;
    FilesFit(w, l, calls, |calls|);
  }

  lemma {:induction false} FilesFit(w: Writer, l: Limits, calls: seq<Call>, n: nat)
    requires n <= |calls| && NoneOverfilled(w, l, calls, n)
    ensures OnlyOldOnesOverfull(w.files, Run(w, l, calls[..n]).files, l)
  {
    if n > 0 {
      FilesFit(w, l, calls, n - 1);
      assert calls[..n][..n - 1] == calls[..n - 1];
      var v := Run(w, l, calls[..n - 1]);
      StepFits(v, l, calls[n - 1]);
      OnlyOldTransitive(w.files, v.files, CallStep(v, l, calls[n - 1]).files, l);
    } else {
      forall g | g in w.files ensures w.files[g] in w.files.Values {}
    }
  }

  /** While every size lookup at an opening works, no call misjudges the file. */
  lemma {:induction false} LookupsSuffice(w: Writer, l: Limits, calls: seq<Call>)
    requires forall i :: 0 <= i < |calls| && calls[i].Write? ==> !calls[i].faults.stat
    ensures Unseen(w, l, calls) == 0
    ensures forall k :: 0 <= k < |calls| ==> !Misjudges(w, l, calls, k)
  {
    if calls != [] {
      var n := |calls| - 1;
      LookupsSuffice(w, l, calls[..n]);
      forall k | 0 <= k < |calls| ensures !Misjudges(w, l, calls, k) {
        if k < n {
          assert calls[..n][..k] == calls[..k] && calls[..n][k] == calls[k];
          assert !Misjudges(w, l, calls[..n], k);
        }
      }
    }
  }

  // ---------------------------------------------------------- rotating no sooner than needed

  /** No piece could have taken the first chunk of the next one. */
  ghost predicate Packed(pieces: seq<File>, l: Limits) {
    forall k {:trigger pieces[k]} :: 0 < k < |pieces| ==>
        pieces[k] != [] && Size(pieces[k - 1]) + |pieces[k][0]| > l.maxBytes
  }

  /** The writer never believes the active file larger than it is, and an empty one has nothing before it. */
  ghost predicate Sound(w: Writer, l: Limits) {
    && (w.open ==> 0 in w.files && w.currentSize <= Size(w.files[0]))
    && (Content(w.files, 0) == [] ==> Pieces(w.files, Oldest(l)) == [])
    && Packed(Pieces(w.files, Oldest(l)), l)
  }

  predicate KeptWhole(c: Chunk, a: Append) {
    !a.Refused? && Kept(c, a) == c
  }

  ghost predicate Appends(call: Call) {
    call.Write? && call.buffer != [] ==> !call.faults.reopen && KeptWhole(call.buffer, call.faults.append)
  }

  lemma PackedAfterChunk(pieces: seq<File>, starts: bool, c: Chunk, l: Limits)
    requires Packed(pieces, l)
    requires pieces != [] ==> pieces[|pieces| - 1] != [] && (starts ==> Size(pieces[|pieces| - 1]) + |c| > l.maxBytes)
    ensures Packed(WithChunk(pieces, starts, c), l)
  {
  }

  lemma KeptWholeIsWhole(w: Writer, l: Limits, c: Chunk, f: Faults)
    requires KeptWhole(c, f.append)
    ensures WriteStep(w, l, c, f) == WriteStep(w, l, c, f.(append := Whole))
  {
    assert Ready(w, l, c, f) == Ready(w, l, c, f.(append := Whole));
  }

  lemma WriteKeepsPacked(w: Writer, l: Limits, c: Chunk, f: Faults)
    requires Sound(w, l) && !f.reopen && f.append.Whole?
    ensures Sound(WriteStep(w, l, c, f).0, l)
  {
    var n := Oldest(l);
    var (entered, ok) := Opened(w, f.open, f.stat);
    OpeningKeepsPieces(w, f.open, f.stat, n);
    AppendingExtendsPieces(entered.files, c, n);
    if ok && MustRotate(entered, l, c) {
      RotatingKeepsPacked(entered, l, c, f);
    } else if ok {
      SizeOfSnoc(entered.files[0], c);
      PackedAfterChunk(Pieces(entered.files, n), Content(entered.files, 0) == [], c, l);
    }
  }

  lemma RotatingKeepsPacked(w: Writer, l: Limits, c: Chunk, f: Faults)
    requires Sound(w, l) && w.open && MustRotate(w, l, c)
    ensures var (rotated, done) := Rotated(w, l, f);
            if done then Sound(Appended(Opened(rotated, false, f.restat).0, c, Whole).0, l) else Sound(rotated, l)
  {
    var (rotated, done) := Rotated(w, l, f);
    RotatedLeavesPacked(w, l, c, f);
    if done {
      var again := Opened(rotated, false, f.restat).0;
      OpeningKeepsPieces(rotated, false, f.restat, Oldest(l));
      StartingKeepsPacked(again, l, c);
    }
  }

  lemma RotatedLeavesPacked(w: Writer, l: Limits, c: Chunk, f: Faults)
    requires Sound(w, l) && w.open && MustRotate(w, l, c)
    ensures var (rotated, done) := Rotated(w, l, f);
            var left := Pieces(rotated.files, Oldest(l));
            && Packed(left, l)
            && (left != [] ==> left[|left| - 1] == w.files[0])
            && (if done then 0 !in rotated.files else Content(rotated.files, 0) != [])
  {
    var n := Oldest(l);
    RotationDropsOnlyTheOldest(w, l, f);
    AppendingExtendsPieces(w.files, c, n);
    var left := Pieces(Rotated(w, l, f).0.files, n);
    var all := Pieces(w.files, n);
    assert left == all || left == all[1..];
  }

  lemma StartingKeepsPacked(w: Writer, l: Limits, c: Chunk)
    requires w.open && 0 in w.files && w.files[0] == [] && w.currentSize == 0
    requires var left := Pieces(w.files, Oldest(l));
             Packed(left, l) && (left != [] ==> left[|left| - 1] != [] && Size(left[|left| - 1]) + |c| > l.maxBytes)
    ensures Sound(Appended(w, c, Whole).0, l)
  {
    AppendingExtendsPieces(w.files, c, Oldest(l));
    SizeOfSnoc([], c);
    PackedAfterChunk(Pieces(w.files, Oldest(l)), true, c, l);
  }

  /**
   * The writer rotates no sooner than it must: while renames, unlinks and opens may fail but chunks that are due are
   * appended, no stored file could have taken the chunk that begins the next one.
   */
  lemma {:induction false} RunKeepsPacked(w: Writer, l: Limits, calls: seq<Call>)
    requires Sound(w, l) && forall i :: 0 <= i < |calls| ==> Appends(calls[i])
    ensures Sound(Run(w, l, calls), l)
  {
    if calls != [] {
      var before := calls[..|calls| - 1];
      RunKeepsPacked(w, l, before);
      var call := calls[|calls| - 1];
      if call.Write? && call.buffer != [] {
        KeptWholeIsWhole(Run(w, l, before), l, call.buffer, call.faults);
        WriteKeepsPacked(Run(w, l, before), l, call.buffer, call.faults.(append := Whole));
      }
    }
  }

  // ------------------------------------------------------------ when a write throws

  /** The shift stops exactly at the first failing rename. */
  lemma {:induction false} ShiftCompletesExactlyWhen(files: Files, i: nat, fails: set<nat>)
    ensures Shift(files, i, fails).1 <==> forall k :: 1 <= k <= i ==> k !in fails
    decreases i
  {
    if i > 0 && i !in fails { ShiftCompletesExactlyWhen(Rename(files, i - 1, i), i - 1, fails); }
  }

  /**
   * A write throws exactly when a call it needs fails: the opening if the descriptor is not held; the unlink, a rename
   * of a generation or the opening again if it has to rotate; the append. Else it returns the length of its buffer.
   */
  lemma ThrowsExactlyWhen(w: Writer, l: Limits, c: Chunk, f: Faults)
    ensures var rotates := Believed(w, f) > 0 && Believed(w, f) + |c| > l.maxBytes;
            WriteStep(w, l, c, f).1 == Threw <==>
            || (!w.open && f.open)
            || (rotates && (f.unlink || f.reopen || exists k :: 1 <= k <= l.maxFiles && k in f.rename))
            || f.append.Refused?
    ensures WriteStep(w, l, c, f).1 == Threw || WriteStep(w, l, c, f).1 == Written(|c|)
  {
    var entered := Opened(w, f.open, f.stat).0;
    ShiftCompletesExactlyWhen(entered.files - {Oldest(l)}, Oldest(l), f.rename);
    var n := Oldest(l);
    assert (exists k :: 1 <= k <= n && k in f.rename) <==> (exists k :: 1 <= k <= l.maxFiles && k in f.rename);
  }
}
