/** The CPU control files as a store whose reads and writes may fail.

    Every failure is a free choice of the environment, so what is proved about
    callers holds for every pattern of failures.  Nobody else writes the files. */
module CpuStore {
  import opened Common
  import opened Text

  type Path = string
  type Files = map<Path, string>

  /** One write that was asked for: whether it undoes an earlier one, whether it
      was reported to succeed, and the files it left behind. */
  datatype Attempt = Attempt(path: Path, undo: bool, ok: bool, after: Files)

  datatype IoError = Unreadable | Unwritable | Disappeared | Mismatch

  function Line(value: string): string {
    value + "\n"
  }

  class ControlFiles {
    var files: Files
    ghost var attempts: seq<Attempt>
    ghost var failures: nat

    constructor (files: Files)
      ensures this.files == files && attempts == [] && failures == 0
    {
      this.files, attempts, failures := files, [], 0;
    }

    method Read(path: Path) returns (r: Result<string, IoError>)
      modifies this`failures
      ensures failures >= old(failures)
      ensures r.Ok? ==> path in files && r.value == files[path]
      ensures r.Err? ==> path !in files || failures > old(failures)
    {
      if path !in files {
        return Err(Unreadable);
      }
      if * {
        failures := failures + 1;
        return Err(Unreadable);
      }
      r := Ok(files[path]);
    }

    /** Whether a control file exists and may be written. */
    method IsWritable(path: Path) returns (writable: bool)
      modifies this`failures
      ensures failures >= old(failures)
      ensures writable ==> path in files
      ensures !writable ==> path !in files || failures > old(failures)
    {
      writable := path in files;
      if * {
        writable, failures := false, failures + 1;
      }
    }

    /** Writes a control file and reads it back; a failure may come before or after
        the new value has landed. */
    method Write(path: Path, value: string, ghost undo: bool) returns (r: Result<(), IoError>)
      modifies this
      ensures failures >= old(failures)
      ensures attempts == old(attempts) + [Attempt(path, undo, r.Ok?, files)]
      ensures r.Ok? ==> path in old(files) && files == old(files)[path := Line(value)] && Trim(Line(value)) == value
      ensures r.Err? ==> files == old(files) || (path in old(files) && files == old(files)[path := Line(value)])
      ensures path in old(files) && Tight(value) && failures == old(failures) ==> r.Ok?
    {
      if path !in files {
        attempts := attempts + [Attempt(path, undo, false, files)];
        return Err(Unwritable);
      }
      if * {
        failures := failures + 1;
        attempts := attempts + [Attempt(path, undo, false, files)];
        return Err(Unwritable);
      }
      files := files[path := Line(value)];
      if * {
        failures := failures + 1;
        attempts := attempts + [Attempt(path, undo, false, files)];
        return Err(Disappeared);
      }
      var actual := files[path];
      if Trim(actual) != value {
        TrimTightLine(value);
        attempts := attempts + [Attempt(path, undo, false, files)];
        return Err(Mismatch);
      }
      attempts := attempts + [Attempt(path, undo, true, files)];
      r := Ok(());
    }
  }

  lemma TrimTightLine(value: string)
    ensures Tight(value) ==> Trim(Line(value)) == value
  {
    if Tight(value) { TrimLine(value); }
  }
}
