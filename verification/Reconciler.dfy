/**
 * The reconciler as the source writes it: loops that change the file system and push to the lists of results,
 * placed and remaining entries, and the chain that runs overlapping calls one after the other.
 */
module Reconciler {
  import opened Options
  import opened SharedFileMounts

  class Machine {
    var files: map<Path, File>
    var manifest: Manifest

    ghost function Contents(): Store
      reads this
    {
      Store(files, manifest)
    }

    /** One turn of the placing loop, with its early exits. */
    method PlaceOne(hash: Content -> Digest, m: Mount, io: PlaceIo, recorded: set<Path>, ghost before: Placing)
      returns (placed: seq<Placed>, status: Status, ghost renamed: set<Path>)
      requires before.files == files
      modifies this`files
      ensures Placing(files, before.placed + placed, before.results + [Outcome(m.destPath, status)],
          before.renamed + renamed)
              == Place(hash, before, m, io, recorded)
    {
      placed, renamed := [], {};
      if !io.safe || !io.dirOk || io.download.None? { return placed, Failed, renamed; }
      var content, desiredMode := io.download.value, ParseMode(m.mode);
      var nextHash := NextHash(hash, content, io);
      if nextHash.Some? && nextHash == CurrentHash(hash, files, m.destPath, io) {
        if m.destPath in recorded { placed := [Placed(m.destPath, nextHash.value)]; }
        if !io.statOk { return placed, Failed, renamed; }
        if files[m.destPath].mode == desiredMode { return placed, Skipped, renamed; }
        if !io.chmodOk { return placed, Failed, renamed; }
        files := files[m.destPath := files[m.destPath].(mode := desiredMode)];
        return placed, Applied, renamed;
      }
      if !io.tmpChmodOk || !io.renameOk { return placed, Failed, renamed; }
      files := files[m.destPath := File(content, desiredMode)];
      renamed := {m.destPath};
      if !io.statAfterOk { return placed, Failed, renamed; }
      var placedHash := if nextHash.Some? then nextHash else if io.rehashed then Some(hash(content)) else None;
      if placedHash.Some? { placed := [Placed(m.destPath, placedHash.value)]; }
      return placed, Applied, renamed;
    }

    method PlaceMounts(hash: Content -> Digest, targets: seq<Mount>, ios: seq<PlaceIo>, recorded: set<Path>)
      returns (placed: seq<Placed>, results: seq<Outcome>, ghost renamed: set<Path>)
      requires |ios| == |targets|
      modifies this`files
      ensures Placing(files, placed, results, renamed) == PlaceAll(hash, old(files), targets, ios, recorded)
    {
      placed, results, renamed := [], [], {};
      for i := 0 to |targets|
        invariant Placing(files, placed, results, renamed)
            == PlaceAll(hash, old(files), targets[..i], ios[..i], recorded)
      {
        assert targets[..i + 1][..i] == targets[..i] && ios[..i + 1][..i] == ios[..i];
        var more, status, moved :=
            PlaceOne(hash, targets[i], ios[i], recorded, Placing(files, placed, results, renamed));
        placed, results, renamed := placed + more, results + [Outcome(targets[i].destPath, status)], renamed + moved;
      }
      assert targets[..|targets|] == targets && ios[..|ios|] == ios;
    }

    method RemoveStaleMounts(hash: Content -> Digest, recorded: seq<Placed>, ios: seq<RemoveIo>, keep: set<Path>)
      returns (results: seq<Outcome>, remaining: seq<Placed>)
      requires |ios| == |recorded|
      modifies this`files
      ensures Removal(files, results, remaining) == RemoveAll(hash, old(files), recorded, ios, keep)
    {
      results, remaining := [], [];
      for i := 0 to |recorded|
        invariant Removal(files, results, remaining) == RemoveAll(hash, old(files), recorded[..i], ios[..i], keep)
      {
        assert recorded[..i + 1][..i] == recorded[..i] && ios[..i + 1][..i] == ios[..i];
        var entry, io := recorded[i], ios[i];
        if entry.destPath in keep { continue; }
        if !io.safe {
          results, remaining := results + [Outcome(entry.destPath, Failed)], remaining + [entry];
          continue;
        }
        if entry.destPath !in files { continue; }
        if !io.hashed || hash(files[entry.destPath].content) != entry.hash || !io.rmOk {
          results, remaining := results + [Outcome(entry.destPath, Failed)], remaining + [entry];
          continue;
        }
        files := files - {entry.destPath};
        results := results + [Outcome(entry.destPath, Removed)];
      }
      assert recorded[..|recorded|] == recorded && ios[..|ios|] == ios;
    }

    method ApplyInternal(hash: Content -> Digest, mounts: Option<seq<Mount>>, io: Io)
      returns (results: seq<Outcome>, ghost renamed: set<Path>)
      requires IoFits(Contents(), mounts, io)
      modifies this
      ensures RunResult(Contents(), results, renamed) == Apply(hash, old(Contents()), mounts, io)
    {
      var recorded := if manifest.Readable? then manifest.mounts else [];
      var targets := if mounts.Some? then mounts.value else [];
      var placed;
      placed, results, renamed := PlaceMounts(hash, targets, io.place, PathsOf(recorded));
      var wanted := if mounts.Some? then Some(Destinations(mounts.value)) else None;
      var remaining: seq<Placed> := [];
      if mounts.Some? && manifest.Readable? {
        var more;
        more, remaining := RemoveStaleMounts(hash, recorded, io.remove, wanted.value);
        results := results + more;
      } else if manifest.Corrupted? {
        results := results + [Outcome(MANIFEST, Failed)];
      }
      var carriedOver := CarriedOver(recorded, PathsOf(placed) + PathsOf(remaining), wanted);
      if manifest.Readable? {
        if io.saveOk {
          manifest := Readable(placed + carriedOver + remaining);
        } else {
          results := results + [Outcome(MANIFEST, Failed)];
        }
      }
    }
  }
}
