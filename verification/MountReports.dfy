/**
 * What the results of the shared-file reconciler report, and the modes it gives its files, told from the configuration,
 * the calls that succeeded and the files alone.
 */
module MountReports {
  import opened Options
  import opened SharedFileMounts

  // ------------------------------------------------------------------ modes

  function OctalDigit(n: nat): char
    requires n < 8
  {
    ('0' as int + n) as char
  }

  /** How a mode is written: a zero and three octal digits. */
  function OctalText(n: nat): string
    requires n < 512
  {
    ['0', OctalDigit(n / 64), OctalDigit(n / 8 % 8), OctalDigit(n % 8)]
  }

  /** A mode that is written this way is read back. */
  lemma ModeReadsBack(n: nat)
    requires n < 512
    ensures ParseMode(Some(OctalText(n))) == n
  {
    assert n == 64 * (n / 64) + 8 * (n / 8 % 8) + n % 8;
  }

  predicate IsMode(text: string) {
    exists n: nat :: n < 512 && text == OctalText(n)
  }

  /** Anything else stands for 0600. */
  lemma OtherTextIsDefault(text: string)
    requires !IsMode(text)
    ensures ParseMode(Some(text)) == 6 * 64
  {
    if |text| == 4 && text[0] == '0' && IsOctal(text[1]) && IsOctal(text[2]) && IsOctal(text[3]) { FourDigits(text); }
  }

  lemma DigitsOf(a: nat, b: nat, c: nat)
    requires a < 8 && b < 8 && c < 8
    ensures var n := 64 * a + 8 * b + c; n < 512 && n / 64 == a && n / 8 % 8 == b && n % 8 == c
  {
    var n := 64 * a + 8 * b + c;
    assert n / 8 == 8 * a + b;
  }

  lemma FourDigits(text: string)
    requires |text| == 4 && text[0] == '0' && IsOctal(text[1]) && IsOctal(text[2]) && IsOctal(text[3])
    ensures IsMode(text)
  {
    var a: nat, b: nat, c: nat := text[1] as int - '0' as int, text[2] as int - '0' as int, text[3] as int - '0' as int;
    var n := 64 * a + 8 * b + c;
    DigitsOf(a, b, c);
    assert text == [text[0], text[1], text[2], text[3]] == OctalText(n);
  }

  /** The mode a configuration asks for. */
  ghost predicate AsksFor(mode: Option<string>, n: nat) {
    if mode.Some? && IsMode(mode.value) then n < 512 && mode.value == OctalText(n) else n == 6 * 64
  }

  lemma ParsedAsAsked(mode: Option<string>)
    ensures AsksFor(mode, ParseMode(mode))
  {
    if mode.Some? {
      if IsMode(mode.value) {
        var n: nat :| n < 512 && mode.value == OctalText(n);
        ModeReadsBack(n);
      } else {
        OtherTextIsDefault(mode.value);
      }
    }
  }

  /** After a run with succeeding I/O every configured file is there, with the mode its configuration asks for. */
  lemma IdealModes(hash: Content -> Digest, s: Store, mounts: seq<Mount>, source: string -> Content, m: Mount)
    requires Regular(s, mounts) && m in mounts
    ensures var files := Apply(hash, s, Some(mounts), Ideal(s, mounts, source)).store.files;
            && m.destPath in files && AsksFor(m.mode, files[m.destPath].mode)
            && hash(files[m.destPath].content) == hash(source(m.sourcePath))
  {
    IdealRun(hash, s, mounts, source);
    SettledFiles(hash, s, mounts, source);
    ParsedAsAsked(m.mode);
    var files := Apply(hash, s, Some(mounts), Ideal(s, mounts, source)).store.files;
    assert InPlace(hash, files, m, source);
  }

  // ----------------------------------------------------------- what one mount reports

  /** The download is there to be compared. */
  predicate Fetched(io: PlaceIo) {
    io.safe && io.dirOk && io.download.Some?
  }

  /** Both hashes could be taken, and they are the same. */
  predicate SameContent(hash: Content -> Digest, files: map<Path, File>, m: Mount, io: PlaceIo) {
    && Fetched(io) && io.tmpHashed && io.destHashed
    && m.destPath in files && hash(files[m.destPath].content) == hash(io.download.value)
  }

  /** Exactly one outcome, under the path of the mount. */
  function StatusOf(hash: Content -> Digest, files: map<Path, File>, m: Mount, io: PlaceIo, right: bool): Status {
    if SameContent(hash, files, m, io) then
      if !io.statOk then Failed else if right then Skipped else if io.chmodOk then Applied else Failed
    else if Fetched(io) && io.tmpChmodOk && io.renameOk && io.statAfterOk then Applied else Failed
  }

  lemma PlaceReports(hash: Content -> Digest, acc: Placing, m: Mount, io: PlaceIo, recorded: set<Path>)
    ensures var right := m.destPath in acc.files && AsksFor(m.mode, acc.files[m.destPath].mode);
            Place(hash, acc, m, io, recorded).results
            == acc.results + [Outcome(m.destPath, StatusOf(hash, acc.files, m, io, right))]
  {
    ParsedAsAsked(m.mode);
    OneModeAsked(m.mode);
  }

  lemma OneModeAsked(mode: Option<string>)
    ensures forall n: nat :: AsksFor(mode, n) ==> n == ParseMode(mode)
  {
    forall n: nat | AsksFor(mode, n) ensures n == ParseMode(mode) {
      if mode.Some? && IsMode(mode.value) { ModeReadsBack(n); } else { ParsedAsAsked(mode); }
    }
  }

  /**
   * What the outcome says of the file. Skipped: it was right before. Applied: it is right now, by the new content or by
   * the mode alone. Failed: nothing happened to it, or it was renamed into place and its size could not be read.
   */
  lemma OutcomesTellTheTruth(hash: Content -> Digest, acc: Placing, m: Mount, io: PlaceIo, recorded: set<Path>)
    ensures var next, p := Place(hash, acc, m, io, recorded), m.destPath;
            var status := next.results[|next.results| - 1].status;
            && next.results == acc.results + [Outcome(p, status)]
            && (status == Skipped ==>
                  next.files == acc.files && p in acc.files && AsksFor(m.mode, acc.files[p].mode))
            && (status == Applied ==>
                  && p in next.files && AsksFor(m.mode, next.files[p].mode)
                  && (|| (p in next.renamed && io.download == Some(next.files[p].content))
                      || (p in acc.files && next.files[p].content == acc.files[p].content
                          && !AsksFor(m.mode, acc.files[p].mode))))
            && (status == Failed ==>
                  next.files == acc.files
                  || (p in next.renamed && !io.statAfterOk && io.download.Some?
                      && p in next.files && next.files[p].content == io.download.value))
            && status != Removed
  {
    PlaceReports(hash, acc, m, io, recorded);
    ParsedAsAsked(m.mode);
    OneModeAsked(m.mode);
  }

  /** Each mount of a run reports once, in order. */
  lemma {:induction false} OneOutcomeEach(hash: Content -> Digest, files: map<Path, File>, mounts: seq<Mount>,
      ios: seq<PlaceIo>, recorded: set<Path>)
    requires |ios| == |mounts|
    ensures var results := PlaceAll(hash, files, mounts, ios, recorded).results;
            |results| == |mounts| && forall k :: 0 <= k < |mounts| ==> results[k].destPath == mounts[k].destPath
  {
    if mounts != [] {
      var k := |mounts| - 1;
      OneOutcomeEach(hash, files, mounts[..k], ios[..k], recorded);
      PlaceReports(hash, PlaceAll(hash, files, mounts[..k], ios[..k], recorded), mounts[k], ios[k], recorded);
    }
  }

  // ------------------------------------------------------- what the removal reports

  /** A record that is not wanted is reported as removed, or as failed and kept, or its file was gone already. */
  lemma RemoveReports(hash: Content -> Digest, acc: Removal, entry: Placed, io: RemoveIo, keep: set<Path>)
    ensures var next, p := Remove(hash, acc, entry, io, keep), entry.destPath;
            if p in keep || (io.safe && p !in acc.files) then next == acc
            else if io.safe && io.hashed && hash(acc.files[p].content) == entry.hash && io.rmOk
            then next == Removal(acc.files - {p}, acc.results + [Outcome(p, Removed)], acc.remaining)
            else next == Removal(acc.files, acc.results + [Outcome(p, Failed)], acc.remaining + [entry])
  {
  }

  /** Exactly the files that are gone after the removal are reported as removed. */
  lemma {:induction false} RemovedExactlyThese(hash: Content -> Digest, files: map<Path, File>, entries: seq<Placed>,
      ios: seq<RemoveIo>, keep: set<Path>, p: Path)
    requires |ios| == |entries|
    ensures var acc := RemoveAll(hash, files, entries, ios, keep);
            Outcome(p, Removed) in acc.results <==> p in files && p !in acc.files
  {
    if entries != [] {
      var k := |entries| - 1;
      var before := RemoveAll(hash, files, entries[..k], ios[..k], keep);
      RemovedExactlyThese(hash, files, entries[..k], ios[..k], keep, p);
      RemovalFrame(hash, files, entries[..k], ios[..k], keep);
      RemoveReports(hash, before, entries[k], ios[k], keep);
    }
  }

  /** Exactly the records that are kept for later are reported as failed. */
  lemma {:induction false} FailedExactlyThese(hash: Content -> Digest, files: map<Path, File>, entries: seq<Placed>,
      ios: seq<RemoveIo>, keep: set<Path>, p: Path)
    requires |ios| == |entries|
    ensures var acc := RemoveAll(hash, files, entries, ios, keep);
            Outcome(p, Failed) in acc.results <==> p in PathsOf(acc.remaining)
  {
    if entries != [] {
      var k := |entries| - 1;
      var before := RemoveAll(hash, files, entries[..k], ios[..k], keep);
      var after := RemoveAll(hash, files, entries, ios, keep);
      FailedExactlyThese(hash, files, entries[..k], ios[..k], keep, p);
      RemoveReports(hash, before, entries[k], ios[k], keep);
      if after.remaining != before.remaining { PathsOfSnoc(after.remaining, |before.remaining|); }
    }
  }

  // -------------------------------------------------------------- the whole run

  /** The manifest is written exactly when it could be read and writing works; a damaged one is left as it is. */
  lemma SavedExactly(hash: Content -> Digest, s: Store, mounts: Option<seq<Mount>>, io: Io)
    requires IoFits(s, mounts, io)
    ensures var t := Apply(hash, s, mounts, io).store;
            && (s.manifest.Corrupted? ==> t.manifest == s.manifest)
            && (s.manifest.Readable? && !io.saveOk ==> t.manifest == s.manifest)
            && (s.manifest.Readable? && io.saveOk ==> t.manifest.Readable?)
  {
  }

  /** Every record of a placing holds the hash of the file that is in its place. */
  lemma {:induction false} RecordsTellTheTruth(hash: Content -> Digest, files: map<Path, File>, mounts: seq<Mount>,
      ios: seq<PlaceIo>, recorded: set<Path>, e: Placed)
    requires |ios| == |mounts| && DistinctDestinations(mounts)
    ensures var acc := PlaceAll(hash, files, mounts, ios, recorded);
            e in acc.placed ==> e.destPath in acc.files && e.hash == hash(acc.files[e.destPath].content)
  {
    if mounts != [] {
      var k := |mounts| - 1;
      var before := PlaceAll(hash, files, mounts[..k], ios[..k], recorded);
      RecordsTellTheTruth(hash, files, mounts[..k], ios[..k], recorded, e);
      PlacingFrame(hash, files, mounts[..k], ios[..k], recorded);
      RecordHolds(hash, before, mounts[k], ios[k], recorded);
      if e in before.placed { assert e.destPath in PathsOf(before.placed)
        && mounts[k].destPath !in Destinations(mounts[..k]); }
    }
  }

  /** What one mount puts on record is its own file. */
  lemma RecordHolds(hash: Content -> Digest, acc: Placing, m: Mount, io: PlaceIo, recorded: set<Path>)
    ensures var next, p := Place(hash, acc, m, io, recorded), m.destPath;
            && (forall q :: q in acc.files && q != p ==> q in next.files && next.files[q] == acc.files[q])
            && (next.placed == acc.placed
                || (p in next.files && next.placed == acc.placed + [Placed(p, hash(next.files[p].content))]))
  {
  }

  /** What a saved run puts on record for the first time is true of the files it leaves. */
  lemma NewRecordsHold(hash: Content -> Digest, s: Store, mounts: Option<seq<Mount>>, io: Io, e: Placed)
    requires IoFits(s, mounts, io) && s.manifest.Readable? && io.saveOk
    requires mounts.Some? ==> DistinctDestinations(mounts.value)
    ensures var t := Apply(hash, s, mounts, io).store;
            t.manifest.Readable?
            && (e in t.manifest.mounts && e !in s.manifest.mounts ==>
                  e.destPath in t.files && e.hash == hash(t.files[e.destPath].content))
  {
    var placing, recorded := Placings(hash, s, mounts, io), PathsOf(Recorded(s));
    if mounts.Some? {
      RemovalFrame(hash, placing.files, s.manifest.mounts, io.remove, Destinations(mounts.value));
      if e in placing.placed {
        RecordsTellTheTruth(hash, s.files, mounts.value, io.place, recorded, e);
        PlacingFrame(hash, s.files, mounts.value, io.place, recorded);
        assert e.destPath in PathsOf(placing.placed);
      }
    }
  }

  /** A run reports its mounts in order, then what it removed, and at last the manifest if it could not be used. */
  lemma RunReports(hash: Content -> Digest, s: Store, mounts: Option<seq<Mount>>, io: Io)
    requires IoFits(s, mounts, io)
    ensures var results, targets := Apply(hash, s, mounts, io).results, if mounts.Some? then mounts.value else [];
            && |targets| <= |results|
            && (forall k :: 0 <= k < |targets| ==>
                  results[k].destPath == targets[k].destPath && results[k].status != Removed)
            && (s.manifest.Corrupted? || !io.saveOk ==> results[|results| - 1] == Outcome("(manifest)", Failed))
            && (forall p :: Outcome(p, Removed) in results ==>
                  p in Placings(hash, s, mounts, io).files && p !in Apply(hash, s, mounts, io).store.files)
            && (forall p :: p in Placings(hash, s, mounts, io).files && p !in Apply(hash, s, mounts, io).store.files ==>
                  Outcome(p, Removed) in results)
  {
    var placing, removal := Placings(hash, s, mounts, io), Removals(hash, s, mounts, io);
    OneOutcomeEach(hash, s.files, Targets(mounts), io.place, PathsOf(Recorded(s)));
    NoneRemovedByPlacing(hash, s.files, Targets(mounts), io.place, PathsOf(Recorded(s)));
    if mounts.Some? && s.manifest.Readable? {
      forall p ensures Outcome(p, Removed) in removal.results <==> p in placing.files && p !in removal.files {
        RemovedExactlyThese(hash, placing.files, s.manifest.mounts, io.remove, Destinations(mounts.value), p);
      }
    }
    assert forall p :: Outcome(p, Removed) !in placing.results;
  }

  lemma {:induction false} NoneRemovedByPlacing(hash: Content -> Digest, files: map<Path, File>, mounts: seq<Mount>,
      ios: seq<PlaceIo>, recorded: set<Path>)
    requires |ios| == |mounts|
    ensures forall r :: r in PlaceAll(hash, files, mounts, ios, recorded).results ==> r.status != Removed
  {
    if mounts != [] {
      var k := |mounts| - 1;
      NoneRemovedByPlacing(hash, files, mounts[..k], ios[..k], recorded);
      PlaceReports(hash, PlaceAll(hash, files, mounts[..k], ios[..k], recorded), mounts[k], ios[k], recorded);
    }
  }
}
