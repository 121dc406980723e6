/**
 * src/shared-file-mounts.ts: the reconciler that makes the files of a machine agree with a configuration,
 * and records in a manifest what it placed so that it can clean up later.
 */
module SharedFileMounts {
  import opened Options

  type Path = string
  type Content = string
  type Digest = string

  datatype File = File(content: Content, mode: nat)
  datatype Mount = Mount(sourcePath: string, destPath: Path, mode: Option<string>)
  datatype Placed = Placed(destPath: Path, hash: Digest)
  datatype Status = Applied | Skipped | Failed | Removed
  datatype Outcome = Outcome(destPath: Path, status: Status)

  /** A manifest that does not exist is readable and empty. */
  datatype Manifest = Readable(mounts: seq<Placed>) | Corrupted
  datatype Store = Store(files: map<Path, File>, manifest: Manifest)

  /** How the I/O of one mount goes: each flag is one call that may fail. */
  datatype PlaceIo = PlaceIo(
    safe: bool, dirOk: bool, download: Option<Content>, tmpHashed: bool, destHashed: bool,
    statOk: bool, chmodOk: bool, tmpChmodOk: bool, renameOk: bool, statAfterOk: bool, rehashed: bool)

  datatype RemoveIo = RemoveIo(safe: bool, hashed: bool, rmOk: bool)

  const DEFAULT_MODE: nat := 384 // 0o600

  predicate IsOctal(c: char) { '0' <= c <= '7' }

  function Digit(c: char): nat
    requires IsOctal(c)
  {
    c as int - '0' as int
  }

  function ParseMode(mode: Option<string>): nat {
    match mode
    case Some(m) =>
      if |m| == 4 && m[0] == '0' && IsOctal(m[1]) && IsOctal(m[2]) && IsOctal(m[3])
      then 64 * Digit(m[1]) + 8 * Digit(m[2]) + Digit(m[3]) else DEFAULT_MODE
    case None => DEFAULT_MODE
  }

  function PathsOf(entries: seq<Placed>): set<Path> {
    set e <- entries :: e.destPath
  }

  function Destinations(mounts: seq<Mount>): set<Path> {
    set m <- mounts :: m.destPath
  }

  // ------------------------------------------------------------- placing

  /** `renamed` are the paths this run renamed a file into. */
  datatype Placing = Placing(files: map<Path, File>, placed: seq<Placed>, results: seq<Outcome>, renamed: set<Path>)

  function Reported(acc: Placing, path: Path, status: Status): Placing {
    acc.(results := acc.results + [Outcome(path, status)])
  }

  /** The destination already holds this content: record it only if it was recorded before, and repair its mode. */
  function KeepFile(acc: Placing, dest: Path, mode: nat, digest: Digest, io: PlaceIo, recorded: set<Path>): Placing
    requires dest in acc.files
  {
    var kept := if dest in recorded then acc.(placed := acc.placed + [Placed(dest, digest)]) else acc;
    if !io.statOk then Reported(kept, dest, Failed)
    else if acc.files[dest].mode == mode then Reported(kept, dest, Skipped)
    else if !io.chmodOk then Reported(kept, dest, Failed)
    else Reported(kept.(files := acc.files[dest := acc.files[dest].(mode := mode)]), dest, Applied)
  }

  function RenameInto(acc: Placing, dest: Path, file: File, digest: Option<Digest>, io: PlaceIo): Placing {
    var moved := acc.(files := acc.files[dest := file], renamed := acc.renamed + {dest});
    if !io.statAfterOk then Reported(moved, dest, Failed)
    else if digest.None? then Reported(moved, dest, Applied)
    else Reported(moved.(placed := acc.placed + [Placed(dest, digest.value)]), dest, Applied)
  }

  function NextHash(hash: Content -> Digest, content: Content, io: PlaceIo): Option<Digest> {
    if io.tmpHashed then Some(hash(content)) else None
  }

  function CurrentHash(hash: Content -> Digest, files: map<Path, File>, dest: Path, io: PlaceIo): Option<Digest> {
    if dest in files && io.destHashed then Some(hash(files[dest].content)) else None
  }

  /** The hash the manifest gets: taken again from the placed file when the first attempt failed. */
  function PlacedHash(hash: Content -> Digest, content: Content, io: PlaceIo): Option<Digest> {
    if io.tmpHashed || io.rehashed then Some(hash(content)) else None
  }

  function Place(hash: Content -> Digest, acc: Placing, m: Mount, io: PlaceIo, recorded: set<Path>): Placing {
    if !io.safe || !io.dirOk || io.download.None? then Reported(acc, m.destPath, Failed) else
    var content := io.download.value;
    var next := NextHash(hash, content, io);
    if next.Some? && next == CurrentHash(hash, acc.files, m.destPath, io)
    then KeepFile(acc, m.destPath, ParseMode(m.mode), next.value, io, recorded)
    else if !io.tmpChmodOk || !io.renameOk then Reported(acc, m.destPath, Failed)
    else RenameInto(acc, m.destPath, File(content, ParseMode(m.mode)), PlacedHash(hash, content, io), io)
  }

  function PlaceAll(hash: Content -> Digest, files: map<Path, File>, mounts: seq<Mount>, ios: seq<PlaceIo>,
      recorded: set<Path>): (acc: Placing)
    requires |ios| == |mounts|
  {
    if mounts == [] then Placing(files, [], [], {}) else
    var k := |mounts| - 1;
    Place(hash, PlaceAll(hash, files, mounts[..k], ios[..k], recorded), mounts[k], ios[k], recorded)
  }

  // ------------------------------------------------------------ removing

  datatype Removal = Removal(files: map<Path, File>, results: seq<Outcome>, remaining: seq<Placed>)

  function Unchanged(hash: Content -> Digest, files: map<Path, File>, entry: Placed, io: RemoveIo): bool {
    entry.destPath in files && io.hashed && hash(files[entry.destPath].content) == entry.hash
  }

  function Remove(hash: Content -> Digest, acc: Removal, entry: Placed, io: RemoveIo, keep: set<Path>): Removal {
    if entry.destPath in keep then acc
    else if io.safe && entry.destPath !in acc.files then acc
    else if !io.safe || !Unchanged(hash, acc.files, entry, io) || !io.rmOk
    then acc.(results := acc.results + [Outcome(entry.destPath, Failed)], remaining := acc.remaining + [entry])
    else acc.(files := acc.files - {entry.destPath}, results := acc.results + [Outcome(entry.destPath, Removed)])
  }

  function RemoveAll(hash: Content -> Digest, files: map<Path, File>, entries: seq<Placed>, ios: seq<RemoveIo>,
      keep: set<Path>): Removal
    requires |ios| == |entries|
  {
    if entries == [] then Removal(files, [], []) else
    var k := |entries| - 1;
    Remove(hash, RemoveAll(hash, files, entries[..k], ios[..k], keep), entries[k], ios[k], keep)
  }

  // ------------------------------------------------------------- one run

  /** Entries of the old manifest that neither were placed again nor await removal, and are still wanted. */
  function CarriedOver(entries: seq<Placed>, settled: set<Path>, wanted: Option<set<Path>>): (rest: seq<Placed>)
    ensures forall e :: e in rest <==>
        e in entries && e.destPath !in settled && (wanted.Some? ==> e.destPath in wanted.value)
    ensures (forall e :: e in entries && (wanted.Some? ==> e.destPath in wanted.value) ==> e.destPath in settled) ==>
        rest == []
  {
    if entries == [] then [] else
    var rest := CarriedOver(entries[1..], settled, wanted);
    var e := entries[0];
    if e.destPath !in settled && (wanted.Some? ==> e.destPath in wanted.value) then [e] + rest else rest
  }

  datatype Io = Io(place: seq<PlaceIo>, remove: seq<RemoveIo>, saveOk: bool)

  function Recorded(s: Store): seq<Placed> {
    if s.manifest.Readable? then s.manifest.mounts else []
  }

  function Targets(mounts: Option<seq<Mount>>): seq<Mount> {
    if mounts.Some? then mounts.value else []
  }

  predicate IoFits(s: Store, mounts: Option<seq<Mount>>, io: Io) {
    |io.place| == |Targets(mounts)| && |io.remove| == |Recorded(s)|
  }

  const MANIFEST: Path := "(manifest)"

  datatype RunResult = RunResult(store: Store, results: seq<Outcome>, renamed: set<Path>)

  function Placings(hash: Content -> Digest, s: Store, mounts: Option<seq<Mount>>, io: Io): Placing
    requires IoFits(s, mounts, io)
  {
    PlaceAll(hash, s.files, Targets(mounts), io.place, PathsOf(Recorded(s)))
  }

  /** Only an explicit configuration and a readable manifest permit any removal. */
  function Removals(hash: Content -> Digest, s: Store, mounts: Option<seq<Mount>>, io: Io): Removal
    requires IoFits(s, mounts, io)
  {
    var files := Placings(hash, s, mounts, io).files;
    if mounts.Some? && s.manifest.Readable?
    then RemoveAll(hash, files, s.manifest.mounts, io.remove, Destinations(mounts.value))
    else Removal(files, if s.manifest.Corrupted? then [Outcome(MANIFEST, Failed)] else [], [])
  }

  function NewManifest(hash: Content -> Digest, s: Store, mounts: Option<seq<Mount>>, io: Io): seq<Placed>
    requires IoFits(s, mounts, io)
  {
    var placed := Placings(hash, s, mounts, io).placed;
    var remaining := Removals(hash, s, mounts, io).remaining;
    var wanted := if mounts.Some? then Some(Destinations(mounts.value)) else None;
    placed + CarriedOver(Recorded(s), PathsOf(placed) + PathsOf(remaining), wanted) + remaining
  }

  function Apply(hash: Content -> Digest, s: Store, mounts: Option<seq<Mount>>, io: Io): RunResult
    requires IoFits(s, mounts, io)
  {
    var placing := Placings(hash, s, mounts, io);
    var removal := Removals(hash, s, mounts, io);
    var saved := s.manifest.Readable? && io.saveOk;
    RunResult(
      Store(removal.files, if saved then Readable(NewManifest(hash, s, mounts, io)) else s.manifest),
      placing.results + removal.results
      + if s.manifest.Readable? && !io.saveOk then [Outcome(MANIFEST, Failed)] else [],
      placing.renamed)
  }

  // --------------------------------------------------- what one run can change

  /** One mount touches one path, and records it only if it was renamed or recorded before. */
  lemma PlaceFrame(hash: Content -> Digest, acc: Placing, m: Mount, io: PlaceIo, recorded: set<Path>)
    ensures var next := Place(hash, acc, m, io, recorded);
            && acc.renamed <= next.renamed <= acc.renamed + {m.destPath}
            && acc.files.Keys <= next.files.Keys <= acc.files.Keys + next.renamed
            && (forall p :: p in acc.files && p != m.destPath ==> next.files[p] == acc.files[p])
            && (next.placed == acc.placed
                || (|next.placed| == |acc.placed| + 1 && next.placed[..|acc.placed|] == acc.placed
                    && next.placed[|acc.placed|].destPath == m.destPath && m.destPath in recorded + next.renamed))
  {
  }

  lemma PathsOfSnoc(entries: seq<Placed>, k: nat)
    requires k + 1 == |entries|
    ensures PathsOf(entries) == PathsOf(entries[..k]) + {entries[k].destPath}
  {
    assert entries == entries[..k] + [entries[k]];
  }

  lemma DestinationsSnoc(mounts: seq<Mount>, k: nat)
    requires k + 1 == |mounts|
    ensures Destinations(mounts) == Destinations(mounts[..k]) + {mounts[k].destPath}
  {
    assert mounts == mounts[..k] + [mounts[k]];
  }

  /** Placing touches only configured destinations, never deletes, and records only what it renamed or had recorded. */
  lemma {:induction false} PlacingFrame(hash: Content -> Digest, files: map<Path, File>, mounts: seq<Mount>,
      ios: seq<PlaceIo>, recorded: set<Path>)
    requires |ios| == |mounts|
    ensures var acc := PlaceAll(hash, files, mounts, ios, recorded);
            && acc.renamed <= Destinations(mounts)
            && files.Keys <= acc.files.Keys <= files.Keys + acc.renamed
            && (forall p :: p in files && p !in Destinations(mounts) ==> acc.files[p] == files[p])
            && PathsOf(acc.placed) <= Destinations(mounts)
            && PathsOf(acc.placed) <= recorded + acc.renamed
  {
    if mounts != [] {
      var k := |mounts| - 1;
      var before := PlaceAll(hash, files, mounts[..k], ios[..k], recorded);
      PlacingFrame(hash, files, mounts[..k], ios[..k], recorded);
      PlaceFrame(hash, before, mounts[k], ios[k], recorded);
      DestinationsSnoc(mounts, k);
      var after := PlaceAll(hash, files, mounts, ios, recorded);
      if after.placed != before.placed { PathsOfSnoc(after.placed, |before.placed|); }
    }
  }

  lemma RemoveFrame(hash: Content -> Digest, acc: Removal, entry: Placed, io: RemoveIo, keep: set<Path>)
    ensures var next := Remove(hash, acc, entry, io, keep);
            && (forall p :: p in next.files ==> p in acc.files && next.files[p] == acc.files[p])
            && (forall p :: p in acc.files && p !in next.files ==>
                  p !in keep && entry == Placed(p, hash(acc.files[p].content)))
            && (entry.destPath in keep || entry.destPath !in next.files || entry in next.remaining)
            && (next.remaining == acc.remaining
                 || (next.remaining == acc.remaining + [entry] && entry.destPath !in keep))
  {
  }

  /** Removing deletes only unwanted recorded files that still hold the recorded content; the rest stays on record. */
  lemma {:induction false} RemovalFrame(hash: Content -> Digest, files: map<Path, File>, entries: seq<Placed>,
      ios: seq<RemoveIo>, keep: set<Path>)
    requires |ios| == |entries|
    ensures var acc := RemoveAll(hash, files, entries, ios, keep);
            && (forall p :: p in acc.files ==> p in files && acc.files[p] == files[p])
            && (forall p :: p in files && p !in acc.files ==>
                 p !in keep && Placed(p, hash(files[p].content)) in entries)
            && (forall e :: e in entries ==> e.destPath in keep || e.destPath !in acc.files || e in acc.remaining)
            && (forall e :: e in acc.remaining ==> e in entries && e.destPath !in keep)
  {
    if entries != [] {
      var k := |entries| - 1;
      RemovalFrame(hash, files, entries[..k], ios[..k], keep);
      RemoveFrame(hash, RemoveAll(hash, files, entries[..k], ios[..k], keep), entries[k], ios[k], keep);
      assert entries == entries[..k] + [entries[k]];
    }
  }

  // ------------------------------------------------------------ accounting

  /**
   * Nothing recorded is ever lost from sight: after a saved run every old entry is still recorded, or its file is
   * gone.
   */
  lemma EveryEntryAccountedFor(hash: Content -> Digest, s: Store, mounts: Option<seq<Mount>>, io: Io, e: Placed)
    requires IoFits(s, mounts, io) && s.manifest.Readable? && io.saveOk && e in s.manifest.mounts
    ensures var t := Apply(hash, s, mounts, io).store;
            t.manifest.Readable? && (e.destPath in PathsOf(t.manifest.mounts) || e.destPath !in t.files)
  {
    var placing, removal := Placings(hash, s, mounts, io), Removals(hash, s, mounts, io);
    var wanted := if mounts.Some? then Some(Destinations(mounts.value)) else None;
    var carried := CarriedOver(s.manifest.mounts, PathsOf(placing.placed) + PathsOf(removal.remaining), wanted);
    var saved := NewManifest(hash, s, mounts, io);
    assert forall x :: x in placing.placed || x in carried || x in removal.remaining ==> x in saved;
    if mounts.Some? {
      RemovalFrame(hash, placing.files, s.manifest.mounts, io.remove, Destinations(mounts.value));
    }
    if e.destPath in PathsOf(placing.placed) {
      var x :| x in placing.placed && x.destPath == e.destPath;
      assert x in saved;
    } else if e.destPath in PathsOf(removal.remaining) {
      var x :| x in removal.remaining && x.destPath == e.destPath;
      assert x in saved;
    } else if wanted.None? || e.destPath in wanted.value {
      assert e in carried;
    }
  }

  /** The three parts of the new manifest never name the same path. */
  lemma PartsAreDisjoint(hash: Content -> Digest, s: Store, mounts: Option<seq<Mount>>, io: Io)
    requires IoFits(s, mounts, io)
    ensures var placed, remaining := Placings(hash, s, mounts, io).placed, Removals(hash, s, mounts, io).remaining;
            var wanted := if mounts.Some? then Some(Destinations(mounts.value)) else None;
            var carried := CarriedOver(Recorded(s), PathsOf(placed) + PathsOf(remaining), wanted);
            PathsOf(placed) !! PathsOf(carried) !! PathsOf(remaining)
  {
    PlacingFrame(hash, s.files, Targets(mounts), io.place, PathsOf(Recorded(s)));
    if mounts.Some? && s.manifest.Readable? {
      RemovalFrame(hash, Placings(hash, s, mounts, io).files, s.manifest.mounts, io.remove, Destinations(mounts.value));
    }
  }

  predicate DistinctDestinations(mounts: seq<Mount>) {
    forall i, j :: 0 <= i < j < |mounts| ==> mounts[i].destPath != mounts[j].destPath
  }

  /** Two stages of a pass agree on what they did with a path. */
  ghost predicate SameAt(a: Placing, b: Placing, p: Path) {
    && (p in a.files <==> p in b.files) && (p in a.files ==> a.files[p] == b.files[p])
    && (p in a.renamed <==> p in b.renamed)
    && (forall d :: Placed(p, d) in a.placed <==> Placed(p, d) in b.placed)
  }

  lemma PlacingElsewhere(hash: Content -> Digest, acc: Placing, m: Mount, io: PlaceIo, recorded: set<Path>, p: Path)
    requires p != m.destPath
    ensures SameAt(acc, Place(hash, acc, m, io, recorded), p)
  {
    PlaceFrame(hash, acc, m, io, recorded);
    var next := Place(hash, acc, m, io, recorded);
    if next.placed != acc.placed {
      assert next.placed == acc.placed + [next.placed[|acc.placed|]];
    }
  }

  /** With distinct destinations, what happened to one mount is not changed by the mounts after it. */
  lemma {:induction false} LaterMountsLeaveAlone(hash: Content -> Digest, files: map<Path, File>, mounts: seq<Mount>,
      ios: seq<PlaceIo>, recorded: set<Path>, k: nat)
    requires |ios| == |mounts| && DistinctDestinations(mounts) && k < |mounts|
    ensures SameAt(PlaceAll(hash, files, mounts[..k + 1], ios[..k + 1], recorded),
        PlaceAll(hash, files, mounts, ios, recorded), mounts[k].destPath)
  {
    var n := |mounts| - 1;
    if k == n {
      assert mounts[..k + 1] == mounts && ios[..k + 1] == ios;
    } else {
      LaterMountsLeaveAlone(hash, files, mounts[..n], ios[..n], recorded, k);
      assert mounts[..n][..k + 1] == mounts[..k + 1] && ios[..n][..k + 1] == ios[..k + 1];
      PlacingElsewhere(hash, PlaceAll(hash, files, mounts[..n], ios[..n], recorded), mounts[n], ios[n], recorded,
        mounts[k].destPath);
    }
  }

  /** One mount, placed where nothing of its path happened before in this run. */
  lemma PlaceRecords(hash: Content -> Digest, acc: Placing, m: Mount, io: PlaceIo, recorded: set<Path>)
    requires m.destPath !in acc.renamed && m.destPath !in PathsOf(acc.placed)
    requires m.destPath in Place(hash, acc, m, io, recorded).renamed
    ensures io.download.Some?
    ensures Placed(m.destPath, hash(io.download.value)) in Place(hash, acc, m, io, recorded).placed
            <==> io.statAfterOk && (io.tmpHashed || io.rehashed)
  {
    assert forall e :: e in acc.placed ==> e.destPath in PathsOf(acc.placed);
  }

  /**
   * A file renamed into place is recorded with its hash exactly when the call that reads its size back did not
   * throw and its hash could be taken, on either attempt. (The source promises it whenever the hash is known.)
   */
  lemma RenamedIsRecordedExactlyWhen(hash: Content -> Digest, s: Store, mounts: seq<Mount>, io: Io, k: nat)
    requires IoFits(s, Some(mounts), io) && DistinctDestinations(mounts) && k < |mounts|
    requires mounts[k].destPath in Apply(hash, s, Some(mounts), io).renamed
    ensures io.place[k].download.Some?
    ensures Placed(mounts[k].destPath, hash(io.place[k].download.value)) in Placings(hash, s, Some(mounts), io).placed
            <==> io.place[k].statAfterOk && (io.place[k].tmpHashed || io.place[k].rehashed)
  {
    var recorded := PathsOf(Recorded(s));
    LaterMountsLeaveAlone(hash, s.files, mounts, io.place, recorded, k);
    var before := PlaceAll(hash, s.files, mounts[..k], io.place[..k], recorded);
    PlacingFrame(hash, s.files, mounts[..k], io.place[..k], recorded);
    assert mounts[..k + 1][..k] == mounts[..k] && io.place[..k + 1][..k] == io.place[..k];
    assert mounts[k].destPath !in Destinations(mounts[..k]);
    PlaceRecords(hash, before, mounts[k], io.place[k], recorded);
  }

  /** The concrete case: the rename succeeded, reading the size back threw, and the file is on no record. */
  lemma UnrecordedAfterFailedStat(hash: Content -> Digest)
    ensures var io := PlaceIo(true, true, Some("secret"), true, true, true, true, true, true, false, true);
            var r := Apply(hash, Store(map[], Readable([])), Some([Mount("a", "/data/a", None)]), Io([io], [], true));
            r.renamed == {"/data/a"} && r.store == Store(map["/data/a" := File("secret", DEFAULT_MODE)], Readable([]))
  {
    var io := PlaceIo(true, true, Some("secret"), true, true, true, true, true, true, false, true);
    var m := Mount("a", "/data/a", None);
    var s, mounts := Store(map[], Readable([])), Some([m]);
    assert [m][..0] == [] && [io][..0] == [];
    var none := PlaceAll(hash, s.files, [], [], {});
    assert PathsOf(Recorded(s)) == {};
    assert Placings(hash, s, mounts, Io([io], [], true)) == Place(hash, none, m, io, {});
  }

  // ------------------------------------------------- only the agent's own files

  /** Any history: runs of this agent, and whatever others do to the files and to the manifest file. */
  datatype StoreEvent =
    | Ran(mounts: Option<seq<Mount>>, io: Io)
    | Edited(files: map<Path, File>)
    | ManifestDeleted
    | ManifestDamaged

  predicate EventFits(s: Store, e: StoreEvent) {
    e.Ran? ==> IoFits(s, e.mounts, e.io)
  }

  /** The store, and the paths this agent has ever renamed a file into. */
  datatype Ledger = Ledger(store: Store, own: set<Path>)

  function After(hash: Content -> Digest, l: Ledger, e: StoreEvent): Ledger
    requires EventFits(l.store, e)
  {
    match e
    case Ran(mounts, io) =>
      var r := Apply(hash, l.store, mounts, io);
      Ledger(r.store, l.own + r.renamed)
    case Edited(files) => l.(store := l.store.(files := files))
    case ManifestDeleted => l.(store := l.store.(manifest := Readable([])))
    case ManifestDamaged => l.(store := l.store.(manifest := Corrupted))
  }

  ghost predicate History(hash: Content -> Digest, l: Ledger, es: seq<StoreEvent>)
    decreases |es|
  {
    es == [] || (EventFits(l.store, es[0]) && History(hash, After(hash, l, es[0]), es[1..]))
  }

  ghost function Final(hash: Content -> Digest, l: Ledger, es: seq<StoreEvent>): Ledger
    requires History(hash, l, es)
    decreases |es|
  {
    if es == [] then l else Final(hash, After(hash, l, es[0]), es[1..])
  }

  ghost predicate RecordsOwn(l: Ledger) {
    PathsOf(Recorded(l.store)) <= l.own
  }

  lemma {:induction false} EventRecordsOwn(hash: Content -> Digest, l: Ledger, e: StoreEvent)
    requires RecordsOwn(l) && EventFits(l.store, e)
    ensures RecordsOwn(After(hash, l, e))
  {
    if e.Ran? {
      var s, mounts, io := l.store, e.mounts, e.io;
      PlacingFrame(hash, s.files, Targets(mounts), io.place, PathsOf(Recorded(s)));
      if mounts.Some? && s.manifest.Readable? {
        RemovalFrame(hash, Placings(hash, s, mounts, io).files, s.manifest.mounts, io.remove,
          Destinations(mounts.value));
      }
      var placed := Placings(hash, s, mounts, io).placed;
      forall x | x in NewManifest(hash, s, mounts, io) ensures x.destPath in PathsOf(placed) + PathsOf(Recorded(s)) {
      }
    }
  }

  /** Over any history the manifest names only paths this agent renamed a file into. */
  lemma {:induction false} ManifestNamesOnlyOwn(hash: Content -> Digest, l: Ledger, es: seq<StoreEvent>)
    requires RecordsOwn(l) && History(hash, l, es)
    ensures RecordsOwn(Final(hash, l, es)) && l.own <= Final(hash, l, es).own
    decreases |es|
  {
    if es != [] {
      EventRecordsOwn(hash, l, es[0]);
      ManifestNamesOnlyOwn(hash, After(hash, l, es[0]), es[1..]);
    }
  }

  predicate Works(io: RemoveIo) {
    io.safe && io.hashed && io.rmOk
  }

  /** Some record of this path and content gets through every check of the removal. */
  ghost predicate Removable(hash: Content -> Digest, files: map<Path, File>, entries: seq<Placed>, ios: seq<RemoveIo>,
      p: Path)
    requires |ios| == |entries| && p in files
  {
    exists k :: 0 <= k < |entries| && entries[k] == Placed(p, hash(files[p].content)) && Works(ios[k])
  }

  lemma {:induction false} RemovedExactlyWhen(hash: Content -> Digest, files: map<Path, File>, entries: seq<Placed>,
      ios: seq<RemoveIo>, keep: set<Path>, p: Path)
    requires |ios| == |entries| && p in files
    ensures p !in RemoveAll(hash, files, entries, ios, keep).files <==>
        p !in keep && Removable(hash, files, entries, ios, p)
  {
    if entries != [] {
      var k := |entries| - 1;
      RemovedExactlyWhen(hash, files, entries[..k], ios[..k], keep, p);
      RemovalFrame(hash, files, entries[..k], ios[..k], keep);
      if Removable(hash, files, entries[..k], ios[..k], p) {
        var j :| 0 <= j < k && entries[..k][j] == Placed(p, hash(files[p].content)) && Works(ios[..k][j]);
        assert entries[j] == entries[..k][j] && ios[j] == ios[..k][j];
      }
      if Removable(hash, files, entries, ios, p) {
        var j :| 0 <= j < |entries| && entries[j] == Placed(p, hash(files[p].content)) && Works(ios[j]);
        assert j < k ==> entries[..k][j] == entries[j] && ios[..k][j] == ios[j];
      }
    }
  }

  /**
   * A run deletes a file exactly when the configuration is explicit and does not name it, the manifest is readable,
   * and the file is on record with the content it has now; then it is one of the agent's own.
   */
  lemma DeletesExactlyWhen(hash: Content -> Digest, l: Ledger, mounts: Option<seq<Mount>>, io: Io, p: Path)
    requires RecordsOwn(l) && IoFits(l.store, mounts, io) && p in l.store.files
    ensures var s := l.store;
            p !in Apply(hash, s, mounts, io).store.files <==>
              && mounts.Some? && p !in Destinations(mounts.value) && s.manifest.Readable?
              && Removable(hash, s.files, s.manifest.mounts, io.remove, p)
    ensures p !in Apply(hash, l.store, mounts, io).store.files ==> p in l.own
  {
    var s := l.store;
    PlacingFrame(hash, s.files, Targets(mounts), io.place, PathsOf(Recorded(s)));
    var files := Placings(hash, s, mounts, io).files;
    if mounts.Some? && s.manifest.Readable? {
      RemovedExactlyWhen(hash, files, s.manifest.mounts, io.remove, Destinations(mounts.value), p);
      if p !in Destinations(mounts.value) {
        assert files[p] == s.files[p];
        assert Removable(hash, files, s.manifest.mounts, io.remove, p) <==>
            Removable(hash, s.files, s.manifest.mounts, io.remove, p);
      }
    }
  }

  // ------------------------------------------------------- one record a path

  predicate DistinctRecords(entries: seq<Placed>) {
    forall i, j :: 0 <= i < j < |entries| ==> entries[i].destPath != entries[j].destPath
  }

  lemma {:induction false} PlacedDistinct(hash: Content -> Digest, files: map<Path, File>, mounts: seq<Mount>,
      ios: seq<PlaceIo>, recorded: set<Path>)
    requires |ios| == |mounts| && DistinctDestinations(mounts)
    ensures DistinctRecords(PlaceAll(hash, files, mounts, ios, recorded).placed)
  {
    if mounts != [] {
      var k := |mounts| - 1;
      PlacedDistinct(hash, files, mounts[..k], ios[..k], recorded);
      PlacingFrame(hash, files, mounts[..k], ios[..k], recorded);
      var before := PlaceAll(hash, files, mounts[..k], ios[..k], recorded);
      PlaceFrame(hash, before, mounts[k], ios[k], recorded);
      assert mounts[k].destPath !in Destinations(mounts[..k]);
      DistinctSnoc(before.placed, PlaceAll(hash, files, mounts, ios, recorded).placed, mounts[k].destPath);
    }
  }

  lemma DistinctSnoc(a: seq<Placed>, b: seq<Placed>, p: Path)
    requires DistinctRecords(a) && p !in PathsOf(a)
    requires b == a || (|b| == |a| + 1 && b[..|a|] == a && b[|a|].destPath == p)
    ensures DistinctRecords(b)
  {
    forall i | 0 <= i < |a| ensures a[i].destPath != p {
      assert a[i].destPath in PathsOf(a);
    }
  }

  lemma {:induction false} CarriedDistinct(entries: seq<Placed>, settled: set<Path>, wanted: Option<set<Path>>)
    requires DistinctRecords(entries)
    ensures DistinctRecords(CarriedOver(entries, settled, wanted))
  {
    if entries != [] {
      CarriedDistinct(entries[1..], settled, wanted);
      var rest := CarriedOver(entries[1..], settled, wanted);
      forall e | e in rest ensures e.destPath != entries[0].destPath {
        assert e in entries[1..];
      }
    }
  }

  lemma {:induction false} RemainingDistinct(hash: Content -> Digest, files: map<Path, File>, entries: seq<Placed>,
      ios: seq<RemoveIo>, keep: set<Path>)
    requires |ios| == |entries| && DistinctRecords(entries)
    ensures DistinctRecords(RemoveAll(hash, files, entries, ios, keep).remaining)
  {
    if entries != [] {
      var k := |entries| - 1;
      RemainingDistinct(hash, files, entries[..k], ios[..k], keep);
      RemovalFrame(hash, files, entries[..k], ios[..k], keep);
      var before := RemoveAll(hash, files, entries[..k], ios[..k], keep);
      RemoveFrame(hash, before, entries[k], ios[k], keep);
      forall e | e in before.remaining ensures e.destPath != entries[k].destPath {
        assert e in entries[..k];
      }
    }
  }

  lemma DistinctConcat(a: seq<Placed>, b: seq<Placed>)
    requires DistinctRecords(a) && DistinctRecords(b) && PathsOf(a) !! PathsOf(b)
    ensures DistinctRecords(a + b) && PathsOf(a + b) == PathsOf(a) + PathsOf(b)
  {
    assert forall e :: e in a ==> e.destPath in PathsOf(a);
    assert forall e :: e in b ==> e.destPath in PathsOf(b);
    assert forall e :: e in a + b <==> e in a || e in b;
  }

  /** Whatever its I/O does, a run over distinct destinations never records a path twice. */
  lemma RecordsStayDistinct(hash: Content -> Digest, s: Store, mounts: Option<seq<Mount>>, io: Io)
    requires IoFits(s, mounts, io) && DistinctRecords(Recorded(s)) && DistinctDestinations(Targets(mounts))
    ensures DistinctRecords(Recorded(Apply(hash, s, mounts, io).store))
  {
    var placed, remaining := Placings(hash, s, mounts, io).placed, Removals(hash, s, mounts, io).remaining;
    var wanted := if mounts.Some? then Some(Destinations(mounts.value)) else None;
    var carried := CarriedOver(Recorded(s), PathsOf(placed) + PathsOf(remaining), wanted);
    PlacedDistinct(hash, s.files, Targets(mounts), io.place, PathsOf(Recorded(s)));
    CarriedDistinct(Recorded(s), PathsOf(placed) + PathsOf(remaining), wanted);
    if mounts.Some? && s.manifest.Readable? {
      RemainingDistinct(hash, Placings(hash, s, mounts, io).files, s.manifest.mounts, io.remove,
        Destinations(mounts.value));
    }
    PartsAreDisjoint(hash, s, mounts, io);
    DistinctConcat(placed, carried);
    DistinctConcat(placed + carried, remaining);
  }

  // ------------------------------------------------------------ convergence

  function IdealPlace(content: Content): PlaceIo {
    PlaceIo(true, true, Some(content), true, true, true, true, true, true, true, true)
  }

  /** Every call succeeds; `source` is what the API serves for each shared file. */
  function Ideal(s: Store, mounts: seq<Mount>, source: string -> Content): (io: Io)
    ensures IoFits(s, Some(mounts), io)
  {
    Io(IdealPlaces(mounts, source), seq(|Recorded(s)|, i => RemoveIo(true, true, true)), true)
  }

  function IdealPlaces(mounts: seq<Mount>, source: string -> Content): (ios: seq<PlaceIo>)
    ensures |ios| == |mounts|
  {
    seq(|mounts|, i requires 0 <= i < |mounts| => IdealPlace(source(mounts[i].sourcePath)))
  }

  predicate Holds(hash: Content -> Digest, files: map<Path, File>, m: Mount, source: string -> Content) {
    m.destPath in files && hash(files[m.destPath].content) == hash(source(m.sourcePath))
  }

  /** What an ideal run records for a mount, given the files it found. */
  function EntryOf(hash: Content -> Digest, files: map<Path, File>, m: Mount, source: string -> Content,
      recorded: set<Path>): seq<Placed> {
    if m.destPath in recorded || !Holds(hash, files, m, source) then [Placed(m.destPath, hash(source(m.sourcePath)))]
      else []
  }

  function EntriesOf(hash: Content -> Digest, files: map<Path, File>, mounts: seq<Mount>, source: string -> Content,
      recorded: set<Path>): seq<Placed> {
    if mounts == [] then [] else
    var k := |mounts| - 1;
    EntriesOf(hash, files, mounts[..k], source, recorded) + EntryOf(hash, files, mounts[k], source, recorded)
  }

  predicate InPlace(hash: Content -> Digest, files: map<Path, File>, m: Mount, source: string -> Content) {
    Holds(hash, files, m, source) && files[m.destPath].mode == ParseMode(m.mode)
  }

  lemma IdealStep(hash: Content -> Digest, acc: Placing, m: Mount, source: string -> Content, recorded: set<Path>)
    ensures var next := Place(hash, acc, m, IdealPlace(source(m.sourcePath)), recorded);
            && next.placed == acc.placed + EntryOf(hash, acc.files, m, source, recorded)
            && InPlace(hash, next.files, m, source)
            && (InPlace(hash, acc.files, m, source) ==>
                  next.files == acc.files && next.renamed == acc.renamed
                  && next.results == acc.results + [Outcome(m.destPath, Skipped)])
  {
  }

  ghost predicate AllInPlace(hash: Content -> Digest, files: map<Path, File>, mounts: seq<Mount>,
      source: string -> Content) {
    forall m :: m in mounts ==> InPlace(hash, files, m, source)
  }

  /** What the last mount adds to an ideal pass, and what it leaves alone. */
  lemma IdealSnoc(hash: Content -> Digest, files: map<Path, File>, mounts: seq<Mount>, source: string -> Content,
      recorded: set<Path>, k: nat)
    requires DistinctDestinations(mounts) && k + 1 == |mounts|
    ensures IdealPlaces(mounts, source)[..k] == IdealPlaces(mounts[..k], source)
    ensures var before := PlaceAll(hash, files, mounts[..k], IdealPlaces(mounts[..k], source), recorded);
            var after := PlaceAll(hash, files, mounts, IdealPlaces(mounts, source), recorded);
            && after == Place(hash, before, mounts[k], IdealPlace(source(mounts[k].sourcePath)), recorded)
            && (Holds(hash, before.files, mounts[k], source) <==> Holds(hash, files, mounts[k], source))
            && (AllInPlace(hash, before.files, mounts[..k], source) ==>
                 AllInPlace(hash, after.files, mounts[..k], source))
  {
    var ios := IdealPlaces(mounts[..k], source);
    assert IdealPlaces(mounts, source)[..k] == ios;
    PlacingFrame(hash, files, mounts[..k], ios, recorded);
    var before := PlaceAll(hash, files, mounts[..k], ios, recorded);
    PlaceFrame(hash, before, mounts[k], IdealPlace(source(mounts[k].sourcePath)), recorded);
    assert mounts[k].destPath !in Destinations(mounts[..k]);
    assert forall m :: m in mounts[..k] ==> m.destPath in Destinations(mounts[..k]);
  }

  /** An ideal pass brings every destination into place and records what EntriesOf says. */
  lemma {:induction false} IdealPlacing(hash: Content -> Digest, files: map<Path, File>, mounts: seq<Mount>,
      source: string -> Content, recorded: set<Path>)
    requires DistinctDestinations(mounts)
    ensures var acc := PlaceAll(hash, files, mounts, IdealPlaces(mounts, source), recorded);
            acc.placed == EntriesOf(hash, files, mounts, source, recorded)
              && AllInPlace(hash, acc.files, mounts, source)
  {
    if mounts != [] {
      var k := |mounts| - 1;
      IdealPlacing(hash, files, mounts[..k], source, recorded);
      IdealSnoc(hash, files, mounts, source, recorded, k);
      var before := PlaceAll(hash, files, mounts[..k], IdealPlaces(mounts[..k], source), recorded);
      IdealStep(hash, before, mounts[k], source, recorded);
      assert mounts == mounts[..k] + [mounts[k]];
    }
  }

  /** When everything is in place already, an ideal pass changes no file and skips every mount. */
  lemma {:induction false} IdealIdle(hash: Content -> Digest, files: map<Path, File>, mounts: seq<Mount>,
      source: string -> Content, recorded: set<Path>)
    requires DistinctDestinations(mounts) && AllInPlace(hash, files, mounts, source)
    ensures var acc := PlaceAll(hash, files, mounts, IdealPlaces(mounts, source), recorded);
            acc.files == files && acc.renamed == {} && |acc.results| == |mounts| && forall r :: r in acc.results ==>
              r.status.Skipped?
  {
    if mounts != [] {
      var k := |mounts| - 1;
      assert mounts[k] in mounts && forall m :: m in mounts[..k] ==> m in mounts;
      IdealIdle(hash, files, mounts[..k], source, recorded);
      IdealSnoc(hash, files, mounts, source, recorded, k);
      IdealStep(hash, PlaceAll(hash, files, mounts[..k], IdealPlaces(mounts[..k], source), recorded), mounts[k],
        source, recorded);
    }
  }

  /** An unwanted record whose file exists with another content: somebody changed it. */
  predicate IsAltered(hash: Content -> Digest, files: map<Path, File>, e: Placed, keep: set<Path>) {
    e.destPath !in keep && e.destPath in files && hash(files[e.destPath].content) != e.hash
  }

  predicate IsClean(hash: Content -> Digest, files: map<Path, File>, e: Placed, keep: set<Path>) {
    e.destPath !in keep && e.destPath in files && hash(files[e.destPath].content) == e.hash
  }

  function Altered(hash: Content -> Digest, files: map<Path, File>, entries: seq<Placed>,
      keep: set<Path>): (rest: seq<Placed>)
    ensures forall e :: e in rest <==> e in entries && IsAltered(hash, files, e, keep)
  {
    if entries == [] then [] else
    var k := |entries| - 1;
    var rest := Altered(hash, files, entries[..k], keep);
    assert entries == entries[..k] + [entries[k]];
    if IsAltered(hash, files, entries[k], keep) then rest + [entries[k]] else rest
  }

  lemma {:induction false} AlteredDistinct(hash: Content -> Digest, files: map<Path, File>, entries: seq<Placed>,
      keep: set<Path>)
    requires DistinctRecords(entries)
    ensures DistinctRecords(Altered(hash, files, entries, keep))
  {
    if entries != [] {
      var k := |entries| - 1;
      AlteredDistinct(hash, files, entries[..k], keep);
      forall e | e in Altered(hash, files, entries[..k], keep) ensures e.destPath != entries[k].destPath {
        assert e in entries[..k];
      }
    }
  }

  lemma {:induction false} NoneAltered(hash: Content -> Digest, files: map<Path, File>, entries: seq<Placed>,
      keep: set<Path>)
    requires forall e :: e in entries ==> !IsAltered(hash, files, e, keep)
    ensures Altered(hash, files, entries, keep) == []
  {
    if entries != [] {
      var k := |entries| - 1;
      assert entries == entries[..k] + [entries[k]];
      NoneAltered(hash, files, entries[..k], keep);
    }
  }

  function Cleaned(hash: Content -> Digest, files: map<Path, File>, entries: seq<Placed>, keep: set<Path>): set<Path> {
    set e <- entries | IsClean(hash, files, e, keep) :: e.destPath
  }

  function IdealRemoves(n: nat): seq<RemoveIo> {
    seq(n, i => RemoveIo(true, true, true))
  }

  /** An ideal removal deletes the clean files and keeps exactly the altered ones on record. */
  lemma {:induction false} IdealRemoval(hash: Content -> Digest, files: map<Path, File>, entries: seq<Placed>,
      keep: set<Path>)
    requires DistinctRecords(entries)
    ensures var acc := RemoveAll(hash, files, entries, IdealRemoves(|entries|), keep);
            && acc.remaining == Altered(hash, files, entries, keep)
            && acc.files == files - Cleaned(hash, files, entries, keep)
  {
    if entries != [] {
      var k := |entries| - 1;
      assert IdealRemoves(|entries|)[..k] == IdealRemoves(k);
      IdealRemoval(hash, files, entries[..k], keep);
      assert entries == entries[..k] + [entries[k]];
      assert entries[k].destPath !in Cleaned(hash, files, entries[..k], keep);
    }
  }

  lemma AlteredSnoc(hash: Content -> Digest, files: map<Path, File>, entries: seq<Placed>, e: Placed, keep: set<Path>)
    requires IsAltered(hash, files, e, keep)
    ensures Altered(hash, files, entries + [e], keep) == Altered(hash, files, entries, keep) + [e]
  {
    assert (entries + [e])[..|entries|] == entries;
  }

  lemma {:induction false} AlteredConcat(hash: Content -> Digest, files: map<Path, File>, a: seq<Placed>,
      b: seq<Placed>, keep: set<Path>)
    requires forall e :: e in a ==> !IsAltered(hash, files, e, keep)
    requires forall e :: e in b ==> IsAltered(hash, files, e, keep)
    ensures Altered(hash, files, a + b, keep) == b
  {
    if b == [] {
      assert a + b == a;
      NoneAltered(hash, files, a, keep);
    } else {
      var k := |b| - 1;
      assert b == b[..k] + [b[k]] && a + b == (a + b[..k]) + [b[k]];
      AlteredConcat(hash, files, a, b[..k], keep);
      AlteredSnoc(hash, files, a + b[..k], b[k], keep);
    }
  }

  lemma EntriesSnoc(hash: Content -> Digest, files: map<Path, File>, mounts: seq<Mount>, source: string -> Content,
      recorded: set<Path>, k: nat)
    requires k + 1 == |mounts|
    ensures EntriesOf(hash, files, mounts, source, recorded)
         == EntriesOf(hash, files, mounts[..k], source, recorded) + EntryOf(hash, files, mounts[k], source, recorded)
    ensures forall m :: m in mounts <==> m in mounts[..k] || m == mounts[k]
  {
    assert mounts == mounts[..k] + [mounts[k]];
  }

  /** Which destinations an ideal pass records: those it had on record, and those it had to write. */
  lemma {:induction false} EntriesNamed(hash: Content -> Digest, files: map<Path, File>, mounts: seq<Mount>,
      source: string -> Content, recorded: set<Path>)
    requires DistinctDestinations(mounts)
    ensures var entries := EntriesOf(hash, files, mounts, source, recorded);
            && PathsOf(entries) <= Destinations(mounts) && DistinctRecords(entries)
            && (forall m :: m in mounts ==>
                 (m.destPath in PathsOf(entries) <==> EntryOf(hash, files, m, source, recorded) != []))
            && (forall e :: e in entries ==>
                 exists m :: m in mounts && e == Placed(m.destPath, hash(source(m.sourcePath))))
  {
    if mounts != [] {
      var k := |mounts| - 1;
      var before, last :=
          EntriesOf(hash, files, mounts[..k], source, recorded), EntryOf(hash, files, mounts[k], source, recorded);
      EntriesNamed(hash, files, mounts[..k], source, recorded);
      EntriesSnoc(hash, files, mounts, source, recorded, k);
      DestinationsSnoc(mounts, k);
      assert mounts[k].destPath !in Destinations(mounts[..k]);
      assert last == [] || PathsOf(last) == {mounts[k].destPath};
      DistinctConcat(before, last);
      forall m | m in mounts[..k] ensures m.destPath in Destinations(mounts[..k]) {}
    }
  }

  lemma {:induction false} SameEntries(hash: Content -> Digest, f: map<Path, File>, g: map<Path, File>,
      mounts: seq<Mount>, source: string -> Content, p: set<Path>, q: set<Path>)
    requires forall m :: m in mounts ==> EntryOf(hash, f, m, source, p) == EntryOf(hash, g, m, source, q)
    ensures EntriesOf(hash, f, mounts, source, p) == EntriesOf(hash, g, mounts, source, q)
  {
    if mounts != [] {
      var k := |mounts| - 1;
      assert mounts == mounts[..k] + [mounts[k]] && mounts[k] in mounts;
      SameEntries(hash, f, g, mounts[..k], source, p, q);
    }
  }

  /** The entries an ideal run writes for its mounts, and the ones it keeps because their files were altered. */
  function PlacedBy(hash: Content -> Digest, s: Store, mounts: seq<Mount>, source: string -> Content): seq<Placed> {
    EntriesOf(hash, s.files, mounts, source, PathsOf(Recorded(s)))
  }

  function FilesPlaced(hash: Content -> Digest, s: Store, mounts: seq<Mount>, source: string -> Content)
    : map<Path, File>
  {
    PlaceAll(hash, s.files, mounts, IdealPlaces(mounts, source), PathsOf(Recorded(s))).files
  }

  ghost predicate Regular(s: Store, mounts: seq<Mount>) {
    s.manifest.Readable? && DistinctRecords(s.manifest.mounts) && DistinctDestinations(mounts)
  }

  /** Nothing is carried over: an ideal pass records every wanted entry itself. */
  lemma NothingCarried(hash: Content -> Digest, s: Store, mounts: seq<Mount>, source: string -> Content,
      more: set<Path>)
    requires Regular(s, mounts)
    ensures CarriedOver(Recorded(s), PathsOf(PlacedBy(hash, s, mounts, source)) + more, Some(Destinations(mounts)))
        == []
  {
    var placed := PlacedBy(hash, s, mounts, source);
    EntriesNamed(hash, s.files, mounts, source, PathsOf(Recorded(s)));
    forall e | e in Recorded(s) && e.destPath in Destinations(mounts) ensures e.destPath in PathsOf(placed) {
      var m :| m in mounts && m.destPath == e.destPath;
      assert m.destPath in PathsOf(Recorded(s));
    }
  }

  lemma IdealParts(hash: Content -> Digest, s: Store, mounts: seq<Mount>, source: string -> Content)
    requires Regular(s, mounts)
    ensures var io, files, keep := Ideal(s, mounts, source), FilesPlaced(hash, s, mounts, source), Destinations(mounts);
            && Placings(hash, s, Some(mounts), io).files == files
            && Placings(hash, s, Some(mounts), io).placed == PlacedBy(hash, s, mounts, source)
            && Removals(hash, s, Some(mounts), io).files == files - Cleaned(hash, files, s.manifest.mounts, keep)
            && Removals(hash, s, Some(mounts), io).remaining == Altered(hash, files, s.manifest.mounts, keep)
  {
    IdealPlacing(hash, s.files, mounts, source, PathsOf(Recorded(s)));
    assert Ideal(s, mounts, source).remove == IdealRemoves(|s.manifest.mounts|);
    IdealRemoval(hash, FilesPlaced(hash, s, mounts, source), s.manifest.mounts, Destinations(mounts));
  }

  /** What one ideal run does, spelt out. */
  lemma IdealRun(hash: Content -> Digest, s: Store, mounts: seq<Mount>, source: string -> Content)
    requires Regular(s, mounts)
    ensures var t := Apply(hash, s, Some(mounts), Ideal(s, mounts, source)).store;
            var files, keep := FilesPlaced(hash, s, mounts, source), Destinations(mounts);
            && t.files == files - Cleaned(hash, files, s.manifest.mounts, keep)
            && t.manifest == Readable(PlacedBy(hash, s, mounts, source) + Altered(hash, files, s.manifest.mounts, keep))
  {
    IdealParts(hash, s, mounts, source);
    var altered := Altered(hash, FilesPlaced(hash, s, mounts, source), s.manifest.mounts, Destinations(mounts));
    NothingCarried(hash, s, mounts, source, PathsOf(altered));
    assert PlacedBy(hash, s, mounts, source) + [] == PlacedBy(hash, s, mounts, source);
  }

  /** The files after an ideal run: every destination in place, every placed entry clean, every kept one altered. */
  lemma SettledFiles(hash: Content -> Digest, s: Store, mounts: seq<Mount>, source: string -> Content)
    requires Regular(s, mounts)
    ensures var files, keep := FilesPlaced(hash, s, mounts, source), Destinations(mounts);
            var left := files - Cleaned(hash, files, s.manifest.mounts, keep);
            && AllInPlace(hash, left, mounts, source)
            && (forall e :: e in PlacedBy(hash, s, mounts, source) ==> e.destPath in keep && IsClean(hash, left, e, {}))
            && (forall e :: e in Altered(hash, files, s.manifest.mounts, keep) ==> IsAltered(hash, left, e, keep))
  {
    var files, keep := FilesPlaced(hash, s, mounts, source), Destinations(mounts);
    var left := files - Cleaned(hash, files, s.manifest.mounts, keep);
    IdealPlacing(hash, s.files, mounts, source, PathsOf(Recorded(s)));
    EntriesNamed(hash, s.files, mounts, source, PathsOf(Recorded(s)));
    forall m | m in mounts ensures InPlace(hash, left, m, source) {
      assert m.destPath in keep;
    }
    forall e | e in PlacedBy(hash, s, mounts, source) ensures e.destPath in keep && IsClean(hash, left, e, {}) {
      var m :| m in mounts && e == Placed(m.destPath, hash(source(m.sourcePath)));
      assert InPlace(hash, left, m, source);
    }
    forall e | e in Altered(hash, files, s.manifest.mounts, keep) ensures IsAltered(hash, left, e, keep) {
      assert e in s.manifest.mounts;
    }
  }

  /** The paths recorded after an ideal run, and that they are distinct. */
  lemma SettledRecords(hash: Content -> Digest, s: Store, mounts: seq<Mount>, source: string -> Content)
    requires Regular(s, mounts)
    ensures var altered := Altered(hash, FilesPlaced(hash, s, mounts, source), s.manifest.mounts, Destinations(mounts));
            var placed := PlacedBy(hash, s, mounts, source);
            && DistinctRecords(placed + altered)
            && (forall m :: m in mounts ==>
                 (m.destPath in PathsOf(placed + altered) <==> m.destPath in PathsOf(placed)))
  {
    var placed := PlacedBy(hash, s, mounts, source);
    var altered := Altered(hash, FilesPlaced(hash, s, mounts, source), s.manifest.mounts, Destinations(mounts));
    EntriesNamed(hash, s.files, mounts, source, PathsOf(Recorded(s)));
    AlteredDistinct(hash, FilesPlaced(hash, s, mounts, source), s.manifest.mounts, Destinations(mounts));
    assert forall e :: e in placed ==> e.destPath in PathsOf(placed);
    assert forall e :: e in altered ==> e.destPath !in Destinations(mounts);
    assert PathsOf(placed + altered) == PathsOf(placed) + PathsOf(altered);
  }

  /** Once settled, a second ideal run records what the first one did. */
  lemma SettledEntries(hash: Content -> Digest, s: Store, mounts: seq<Mount>, source: string -> Content,
      left: map<Path, File>, records: seq<Placed>)
    requires Regular(s, mounts) && AllInPlace(hash, left, mounts, source)
    requires forall m :: m in mounts ==>
        (m.destPath in PathsOf(records) <==> m.destPath in PathsOf(PlacedBy(hash, s, mounts, source)))
    ensures EntriesOf(hash, left, mounts, source, PathsOf(records)) == PlacedBy(hash, s, mounts, source)
  {
    EntriesNamed(hash, s.files, mounts, source, PathsOf(Recorded(s)));
    forall m | m in mounts
      ensures EntryOf(hash, left, m, source, PathsOf(records))
          == EntryOf(hash, s.files, m, source, PathsOf(Recorded(s)))
    {
      assert InPlace(hash, left, m, source);
    }
    SameEntries(hash, left, s.files, mounts, source, PathsOf(records), PathsOf(Recorded(s)));
  }

  /** A store in which a configuration has settled: all in place, own records clean, foreign ones altered. */
  ghost predicate Settled(hash: Content -> Digest, once: Store, mounts: seq<Mount>, source: string -> Content,
      placed: seq<Placed>, altered: seq<Placed>) {
    && once.manifest == Readable(placed + altered) && DistinctRecords(placed + altered)
    && AllInPlace(hash, once.files, mounts, source)
    && (forall e :: e in placed ==> e.destPath in Destinations(mounts))
    && (forall e :: e in altered ==> IsAltered(hash, once.files, e, Destinations(mounts)))
    && EntriesOf(hash, once.files, mounts, source, PathsOf(placed + altered)) == placed
  }

  lemma FirstRunSettles(hash: Content -> Digest, s: Store, mounts: seq<Mount>, source: string -> Content)
    requires Regular(s, mounts)
    ensures Settled(hash, Apply(hash, s, Some(mounts), Ideal(s, mounts, source)).store, mounts, source,
        PlacedBy(hash, s, mounts, source),
                    Altered(hash, FilesPlaced(hash, s, mounts, source), s.manifest.mounts, Destinations(mounts)))
  {
    var once := Apply(hash, s, Some(mounts), Ideal(s, mounts, source)).store;
    var placed, altered := PlacedBy(hash, s, mounts, source),
        Altered(hash, FilesPlaced(hash, s, mounts, source), s.manifest.mounts, Destinations(mounts));
    IdealRun(hash, s, mounts, source);
    SettledFiles(hash, s, mounts, source);
    SettledRecords(hash, s, mounts, source);
    SettledEntries(hash, s, mounts, source, once.files, placed + altered);
  }

  lemma SettledStays(hash: Content -> Digest, once: Store, mounts: seq<Mount>, source: string -> Content,
      placed: seq<Placed>, altered: seq<Placed>)
    requires DistinctDestinations(mounts) && Settled(hash, once, mounts, source, placed, altered)
    ensures Regular(once, mounts)
    ensures Apply(hash, once, Some(mounts), Ideal(once, mounts, source)).store == once
  {
    var keep := Destinations(mounts);
    IdealIdle(hash, once.files, mounts, source, PathsOf(Recorded(once)));
    IdealRun(hash, once, mounts, source);
    AlteredConcat(hash, once.files, placed, altered, keep);
    assert Cleaned(hash, once.files, placed + altered, keep) == {};
  }

  /**
   * Convergence: with succeeding I/O, distinct destinations and no outside writes, applying the same configuration
   * a second time changes neither a file nor a mode nor the manifest, and every mount is skipped.
   */
  lemma SecondRunChangesNothing(hash: Content -> Digest, s: Store, mounts: seq<Mount>, source: string -> Content)
    requires Regular(s, mounts)
    ensures var once := Apply(hash, s, Some(mounts), Ideal(s, mounts, source)).store;
            var twice := Apply(hash, once, Some(mounts), Ideal(once, mounts, source));
            && Regular(once, mounts) && twice.store == once && twice.renamed == {}
            && forall r :: r in Placings(hash, once, Some(mounts), Ideal(once, mounts, source)).results ==>
                 r.status.Skipped?
  {
    var once := Apply(hash, s, Some(mounts), Ideal(s, mounts, source)).store;
    FirstRunSettles(hash, s, mounts, source);
    SettledStays(hash, once, mounts, source, PlacedBy(hash, s, mounts, source),
                 Altered(hash, FilesPlaced(hash, s, mounts, source), s.manifest.mounts, Destinations(mounts)));
    IdealIdle(hash, once.files, mounts, source, PathsOf(Recorded(once)));
  }

  /** An ideal run with an empty configuration, on records of which some are clean and the others altered. */
  lemma EmptyRun(hash: Content -> Digest, s: Store, source: string -> Content, clean: seq<Placed>, altered: seq<Placed>)
    requires s.manifest == Readable(clean + altered) && DistinctRecords(clean + altered)
    requires forall e :: e in clean ==> IsClean(hash, s.files, e, {})
    requires forall e :: e in altered ==> IsAltered(hash, s.files, e, {})
    ensures var last := Apply(hash, s, Some([]), Ideal(s, [], source)).store;
            last.manifest == Readable(altered) && last.files == s.files - PathsOf(clean)
  {
    IdealRun(hash, s, [], source);
    assert FilesPlaced(hash, s, [], source) == s.files;
    assert PlacedBy(hash, s, [], source) + altered == altered;
    assert Destinations([]) == {};
    AlteredConcat(hash, s.files, clean, altered, {});
    assert Cleaned(hash, s.files, clean + altered, {}) == PathsOf(clean);
  }

  /**
   * Then an empty configuration removes every file on record, except the ones somebody altered, and forgets the rest.
   */
  lemma EmptyRunCleansUp(hash: Content -> Digest, s: Store, mounts: seq<Mount>, source: string -> Content)
    requires Regular(s, mounts)
    ensures var once := Apply(hash, s, Some(mounts), Ideal(s, mounts, source)).store;
            var last := Apply(hash, once, Some([]), Ideal(once, [], source)).store;
            var altered := Altered(hash, FilesPlaced(hash, s, mounts, source), s.manifest.mounts, Destinations(mounts));
            && last.manifest == Readable(altered)
            && last.files == once.files - PathsOf(PlacedBy(hash, s, mounts, source))
  {
    IdealRun(hash, s, mounts, source);
    SettledFiles(hash, s, mounts, source);
    SettledRecords(hash, s, mounts, source);
    EmptyRun(hash, Apply(hash, s, Some(mounts), Ideal(s, mounts, source)).store, source,
      PlacedBy(hash, s, mounts, source),
             Altered(hash, FilesPlaced(hash, s, mounts, source), s.manifest.mounts, Destinations(mounts)));
  }
}
