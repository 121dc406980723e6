/** The class of src/log-rotator.ts, method by method, over the files it changes. */
module RotatingFileWriter {
  import opened Options
  import opened LogRotator

  class RotatingFileWriter {
    const limits: Limits
    var files: Files
    var fd: bool
    var currentSize: nat

    ghost function State(): Writer
      reads this
    {
      Writer(files, fd, currentSize)
    }

    constructor (limits: Limits, files: Files)
      requires limits.maxBytes > 0
      ensures State() == Writer(files, false, 0) && this.limits == limits
    {
      this.limits, this.files, fd, currentSize := limits, files, false, 0;
    }

    method CloseFile()
      modifies this`fd
      ensures State() == CallStep(old(State()), limits, Close)
    {
      if fd { fd := false; }
    }

    /** openSync in append mode; a mkdir or open error leaves everything as it was. */
    method EnsureOpen(fails: bool, statFails: bool) returns (ok: bool)
      modifies this
      ensures (State(), ok) == Opened(old(State()), fails, statFails)
    {
      if fd { return true; }
      if fails { return false; }
      files := files[0 := Content(files, 0)];
      fd := true;
      currentSize := if statFails then 0 else Size(files[0]);
      ok := true;
    }

    /** renameSync without an error other than ENOENT. Every caller must show that nothing is overwritten. */
    method RenameSync(src: nat, dst: nat)
      requires dst !in files
      modifies this`files
      ensures files == Rename(old(files), src, dst)
    {
      if src in files { files := (files - {src})[dst := files[src]]; }
    }

    method Rotate(f: Faults) returns (ok: bool)
      modifies this
      ensures (State(), ok) == Rotated(old(State()), limits, f)
    {
      CloseFile();
      if f.unlink { return false; }
      if limits.maxFiles <= 0 {
        files := files - {0};
        currentSize := 0;
        return true;
      }
      files := files - {limits.maxFiles};
      ghost var begun := files;
      var i: nat := limits.maxFiles;
      while i >= 2
        invariant 1 <= i && i !in files && !fd && currentSize == old(currentSize)
        invariant Shift(begun, limits.maxFiles, f.rename) == Shift(files, i, f.rename)
      {
        if i in f.rename { return false; }
        RenameSync(i - 1, i);
        i := i - 1;
      }
      if 1 in f.rename { return false; }
      RenameSync(0, 1);
      currentSize := 0;
      ok := true;
    }

    method Write(buffer: seq<bv8>, f: Faults) returns (outcome: Outcome)
      modifies this
      ensures (State(), outcome) == WriteStep(old(State()), limits, buffer, f)
    {
      if |buffer| == 0 { return Written(0); }
      var ok := EnsureOpen(f.open, f.stat);
      if !ok { return Threw; }
      if currentSize > 0 && currentSize + |buffer| > limits.maxBytes {
        ok := Rotate(f);
        if !ok { return Threw; }
        ok := EnsureOpen(f.reopen, f.restat);
        if !ok { return Threw; }
      }
      if f.append.Refused? { return Threw; }
      files := files[0 := Content(files, 0) + Piece(buffer, f.append)];
      currentSize := currentSize + |buffer|;
      outcome := Written(|buffer|);
    }
  }

  /** The constructor's own check: a limit that is not positive is an error. */
  method Create(maxBytes: int, maxFiles: int, files: Files) returns (writer: Option<RotatingFileWriter>)
    ensures writer.Some? <==> maxBytes > 0
    ensures writer.Some? ==> fresh(writer.value) && writer.value.limits == Limits(maxBytes, maxFiles)
    ensures writer.Some? ==> writer.value.State() == Writer(files, false, 0)
  {
    if maxBytes <= 0 { return None; }
    var created := new RotatingFileWriter(Limits(maxBytes, maxFiles), files);
    writer := Some(created);
  }
}
