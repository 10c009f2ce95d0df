/** Transactional CPU writes: snapshot, check, write, verify, and roll back in
    reverse order. */
module CpuTransaction {
  import opened Common
  import opened Text
  import opened CpuStore

  datatype CpuWrite = CpuWrite(path: Path, expected: Option<string>, value: string)

  datatype TxError =
    | SnapshotFailed(path: Path)
    | ChangedBeforeUpdate(path: Path)
    | WriteFailed(path: Path)
    | VerifyFailed(path: Path)
    | NotRetained(path: Path)
    | RollbackFailed(primary: TxError, endpoints: seq<Path>)

  // ---------------------------------------------------------------- what a batch means

  ghost predicate Touches(writes: seq<CpuWrite>, p: Path) {
    exists op :: op in writes && op.path == p
  }

  ghost predicate AllPresent(f: Files, writes: seq<CpuWrite>) {
    forall i | 0 <= i < |writes| :: writes[i].path in f
  }

  ghost predicate DistinctPaths(writes: seq<CpuWrite>) {
    forall i, j :: 0 <= i < j < |writes| ==> writes[i].path != writes[j].path
  }

  /** What the batch asks each path to hold in the end: the last request wins. */
  function Targets(writes: seq<CpuWrite>): map<Path, string> {
    if writes == [] then map[]
    else Targets(writes[..|writes| - 1])[writes[|writes| - 1].path := writes[|writes| - 1].value]
  }

  /** A request that no later one for its path overrides is a target. */
  lemma {:induction false} LastRequestWins(writes: seq<CpuWrite>, i: nat)
    requires i < |writes| && forall j :: i < j < |writes| ==> writes[j].path != writes[i].path
    ensures writes[i].path in Targets(writes) && Targets(writes)[writes[i].path] == writes[i].value
  {
    if i < |writes| - 1 { LastRequestWins(writes[..|writes| - 1], i); }
  }

  /** The files without surrounding white space, which is how they are compared. */
  ghost function Contents(f: Files): map<Path, string> {
    map p | p in f :: Trim(f[p])
  }

  /** The batch does not issue a write whose value was there to begin with. */
  ghost predicate Skipped(f: Files, op: CpuWrite) {
    op.path in f && Trim(f[op.path]) == op.value
  }

  /** The files after the first `m` writes of the batch. */
  ghost function Carried(f: Files, writes: seq<CpuWrite>, m: nat): Files
    requires m <= |writes|
  {
    if m == 0 then f
    else if Skipped(f, writes[m - 1]) then Carried(f, writes, m - 1)
    else Carried(f, writes, m - 1)[writes[m - 1].path := Line(writes[m - 1].value)]
  }

  ghost function Staged(f: Files, writes: seq<CpuWrite>, m: nat): map<Path, string>
    requires m <= |writes|
  {
    Contents(Carried(f, writes, m))
  }

  /** Carrying out the batch leaves every path with what is asked for last. */
  ghost predicate Retains(f: Files, writes: seq<CpuWrite>) {
    Matches(Staged(f, writes, |writes|), Targets(writes))
  }

  ghost predicate Matches(contents: map<Path, string>, targets: map<Path, string>) {
    forall p | p in targets :: p in contents && contents[p] == targets[p]
  }

  /** Some prefix of the batch has been carried out, and nothing else. */
  ghost predicate IsStage(f: Files, writes: seq<CpuWrite>, now: Files) {
    exists m: nat :: m <= |writes| && Contents(now) == Staged(f, writes, m)
  }

  ghost predicate ExpectationsMet(f: Files, writes: seq<CpuWrite>) {
    forall op | op in writes ::
      op.path in f && (op.expected.Some? ==> Trim(f[op.path]) == op.expected.value)
  }

  /** No undoing write before attempt `q` was reported to fail. */
  ghost predicate UndoneCleanly(attempts: seq<Attempt>, from: nat, q: nat)
    requires from <= q <= |attempts|
  {
    forall i | from <= i < q :: attempts[i].undo ==> attempts[i].ok
  }

  /** The files with the given paths put back to their originals. */
  ghost function Undone(f: Files, originals: Files, paths: seq<Path>): Files {
    map p | p in f :: if p in paths && p in originals then Line(Trim(originals[p])) else f[p]
  }

  // ---------------------------------------------------------------- rollback

  /** Path `p` as the rollback leaves it when the writes to `failed` fail. */
  ghost predicate PutBack(before: Files, now: Files, originals: Files, paths: seq<Path>, failed: seq<Path>, p: Path)
    requires p in before && p in now && (p in paths ==> p in originals)
  {
    if p !in paths then now[p] == before[p]
    else now[p] == Line(Trim(originals[p])) || (p in failed && now[p] == before[p])
  }

  ghost predicate IsUndone(before: Files, now: Files, originals: Files, attempted: seq<Path>) {
    exists a: nat :: a <= |attempted| && now == Undone(before, originals, attempted[a..])
  }

  /** How far a rollback has come when `attempted[i..]` has been put back. */
  ghost predicate Progress(start: Files, originals: Files, attempted: seq<Path>, base: nat,
                           i: nat, files: Files, failed: seq<Path>, attempts: seq<Attempt>)
    requires forall p | p in attempted :: p in originals && p in start
  {
    && i <= |attempted|
    && base <= |attempts|
    && files.Keys == start.Keys
    && (forall p | p in files :: PutBack(start, files, originals, attempted[i..], failed, p))
    && (failed == [] ==> files == Undone(start, originals, attempted[i..]))
    && (failed == [] <==> UndoneCleanly(attempts, base, |attempts|))
    && (forall q | base <= q < |attempts| :: attempts[q].undo)
    && (forall q | base <= q < |attempts| ::
          UndoneCleanly(attempts, base, q) ==> IsUndone(start, attempts[q].after, originals, attempted))
  }

  /** The order in which a rollback undoes: the last attempted path first, each once. */
  function UndoOrder(attempted: seq<Path>): (order: seq<Path>)
    ensures forall p :: p in order <==> p in attempted
    ensures forall i, j :: 0 <= i < j < |order| ==> order[i] != order[j]
  {
    if attempted == [] then []
    else UndoOrder(attempted[1..]) + if attempted[0] in attempted[1..] then [] else [attempted[0]]
  }

  /** The paths of the writes that were asked for since `base`. */
  ghost function Tried(attempts: seq<Attempt>, base: nat): seq<Path>
    requires base <= |attempts|
  {
    if |attempts| == base then []
    else Tried(attempts[..|attempts| - 1], base) + [attempts[|attempts| - 1].path]
  }

  /** Those of them that undo and were reported to fail. */
  ghost function FailedUndos(attempts: seq<Attempt>, base: nat): (failed: seq<Path>)
    requires base <= |attempts|
    ensures forall p :: p in failed <==>
      exists q :: base <= q < |attempts| && attempts[q].path == p && attempts[q].undo && !attempts[q].ok
  {
    if |attempts| == base then []
    else
      var front, last := attempts[..|attempts| - 1], attempts[|attempts| - 1];
      FailedUndos(front, base) + if last.undo && !last.ok then [last.path] else []
  }

  /** The endpoints that an error names as not restored. */
  function Endpoints(e: TxError): seq<Path> {
    if e.RollbackFailed? then e.endpoints else []
  }

  lemma CleanMeansNoneFailed(attempts: seq<Attempt>, base: nat)
    requires base <= |attempts|
    ensures FailedUndos(attempts, base) == [] <==> UndoneCleanly(attempts, base, |attempts|)
  {
    var failed := FailedUndos(attempts, base);
    if failed != [] {
      assert failed[0] in failed;
    }
    if q :| base <= q < |attempts| && attempts[q].undo && !attempts[q].ok {
      assert attempts[q].path in failed;
    }
  }

  lemma TriedExtends(attempts: seq<Attempt>, base: nat, next: Attempt)
    requires base <= |attempts|
    ensures Tried(attempts + [next], base) == Tried(attempts, base) + [next.path]
    ensures FailedUndos(attempts + [next], base)
         == FailedUndos(attempts, base) + if next.undo && !next.ok then [next.path] else []
  {
    assert (attempts + [next])[..|attempts|] == attempts;
  }

  /** Writes that undo nothing fail no undoing. */
  lemma {:induction false} ForwardFailsNoUndo(attempts: seq<Attempt>, base: nat, mid: nat)
    requires base <= mid <= |attempts| && forall q | base <= q < mid :: !attempts[q].undo
    ensures FailedUndos(attempts, base) == FailedUndos(attempts, mid)
    decreases |attempts|
  {
    if |attempts| > mid {
      ForwardFailsNoUndo(attempts[..|attempts| - 1], base, mid);
    } else if mid > base {
      ForwardFailsNoUndo(attempts[..mid - 1], base, mid - 1);
    }
  }

  lemma UndoneWith(start: Files, originals: Files, path: Path, tail: seq<Path>)
    requires path in start && path in originals
    ensures Undone(start, originals, [path] + tail)
         == Undone(start, originals, tail)[path := Line(Trim(originals[path]))]
    ensures path in tail ==> Undone(start, originals, [path] + tail) == Undone(start, originals, tail)
  {
    hide Trim, Line;
    assert forall p :: p in [path] + tail <==> p == path || p in tail;
  }

  lemma UndoneGrows(start: Files, originals: Files, attempted: seq<Path>, i: nat)
    requires i < |attempted| && forall p | p in attempted :: p in originals && p in start
    ensures attempted[i..] == [attempted[i]] + attempted[i + 1..]
    ensures Undone(start, originals, attempted[i..])
         == Undone(start, originals, attempted[i + 1..])[attempted[i] := Line(Trim(originals[attempted[i]]))]
    ensures attempted[i] in attempted[i + 1..] ==>
      Undone(start, originals, attempted[i..]) == Undone(start, originals, attempted[i + 1..])
  {
    hide Undone, Trim, Line;
    assert attempted[i..] == [attempted[i]] + attempted[i + 1..];
    UndoneWith(start, originals, attempted[i], attempted[i + 1..]);
  }

  lemma ProgressStep(start: Files, originals: Files, attempted: seq<Path>, base: nat,
                     i: nat, files: Files, failed: seq<Path>, attempts: seq<Attempt>,
                     files': Files, attempts': seq<Attempt>, ok: bool)
    requires i < |attempted| && forall p | p in attempted :: p in originals && p in start
    requires Progress(start, originals, attempted, base, i + 1, files, failed, attempts)
    requires attempted[i] !in attempted[i + 1..]
    requires files' == files[attempted[i] := Line(Trim(originals[attempted[i]]))] || (!ok && files' == files)
    requires attempts' == attempts + [Attempt(attempted[i], true, ok, files')]
    ensures Progress(start, originals, attempted, base, i, files',
                     if ok then failed else failed + [attempted[i]], attempts')
  {
    var failed' := if ok then failed else failed + [attempted[i]];
    assert forall p | p in files' :: PutBack(start, files', originals, attempted[i..], failed', p) by {
      PutBackStep(start, originals, attempted, i, files, failed, files', ok);
    }
    assert failed == [] ==> IsUndone(start, files', originals, attempted)
                            && (ok ==> files' == Undone(start, originals, attempted[i..])) by {
      UndoneGrows(start, originals, attempted, i);
    }
    CleanlyExtends(start, originals, attempted, base, attempts, attempts');
  }

  lemma PutBackStep(start: Files, originals: Files, attempted: seq<Path>, i: nat,
                    files: Files, failed: seq<Path>, files': Files, ok: bool)
    requires i < |attempted| && files.Keys == start.Keys && forall p | p in attempted :: p in originals && p in start
    requires forall p | p in files :: PutBack(start, files, originals, attempted[i + 1..], failed, p)
    requires attempted[i] !in attempted[i + 1..]
    requires files' == files[attempted[i] := Line(Trim(originals[attempted[i]]))] || (!ok && files' == files)
    ensures forall p | p in files' ::
      PutBack(start, files', originals, attempted[i..], if ok then failed else failed + [attempted[i]], p)
  {
    assert attempted[i..] == [attempted[i]] + attempted[i + 1..];
    forall p | p in files'
      ensures PutBack(start, files', originals, attempted[i..], if ok then failed else failed + [attempted[i]], p)
    {
      assert PutBack(start, files, originals, attempted[i + 1..], failed, p);
    }
  }

  lemma CleanlyExtends(start: Files, originals: Files, attempted: seq<Path>, base: nat,
                       attempts: seq<Attempt>, attempts': seq<Attempt>)
    requires base <= |attempts| && |attempts'| == |attempts| + 1 && attempts < attempts'
    requires UndoneCleanly(attempts, base, |attempts|) ==>
      IsUndone(start, attempts'[|attempts|].after, originals, attempted)
    requires forall q | base <= q < |attempts| ::
      UndoneCleanly(attempts, base, q) ==> IsUndone(start, attempts[q].after, originals, attempted)
    ensures forall q | base <= q < |attempts'| ::
      UndoneCleanly(attempts', base, q) ==> IsUndone(start, attempts'[q].after, originals, attempted)
    ensures UndoneCleanly(attempts', base, |attempts'|)
      <==> UndoneCleanly(attempts, base, |attempts|) && (attempts'[|attempts|].undo ==> attempts'[|attempts|].ok)
  {
    forall q | base <= q <= |attempts|
      ensures UndoneCleanly(attempts', base, q) <==> UndoneCleanly(attempts, base, q)
    {
      assert forall k | base <= k < q :: attempts'[k] == attempts[k];
    }
  }

  lemma ProgressSkip(start: Files, originals: Files, attempted: seq<Path>, base: nat,
                     i: nat, files: Files, failed: seq<Path>, attempts: seq<Attempt>)
    requires i < |attempted| && forall p | p in attempted :: p in originals && p in start
    requires Progress(start, originals, attempted, base, i + 1, files, failed, attempts)
    requires attempted[i] in attempted[i + 1..]
    ensures Progress(start, originals, attempted, base, i, files, failed, attempts)
  {
    UndoneGrows(start, originals, attempted, i);
  }

  /** The undoing writes of `attempted[i..]` are recorded, the failed ones as such. */
  ghost predicate Recorded(attempted: seq<Path>, base: nat, i: nat, failed: seq<Path>, attempts: seq<Attempt>) {
    && i <= |attempted| && base <= |attempts|
    && Tried(attempts, base) == UndoOrder(attempted[i..])
    && FailedUndos(attempts, base) == failed
  }

  lemma RecordedStep(attempted: seq<Path>, base: nat, i: nat, failed: seq<Path>, attempts: seq<Attempt>, next: Attempt)
    requires i < |attempted| && Recorded(attempted, base, i + 1, failed, attempts)
    requires next.path == attempted[i] && next.undo && attempted[i] !in attempted[i + 1..]
    ensures Recorded(attempted, base, i, if next.ok then failed else failed + [next.path], attempts + [next])
  {
    assert attempted[i..][1..] == attempted[i + 1..];
    TriedExtends(attempts, base, next);
  }

  lemma RecordedSkip(attempted: seq<Path>, base: nat, i: nat, failed: seq<Path>, attempts: seq<Attempt>)
    requires i < |attempted| && Recorded(attempted, base, i + 1, failed, attempts)
    requires attempted[i] in attempted[i + 1..]
    ensures Recorded(attempted, base, i, failed, attempts)
  {
    assert attempted[i..][1..] == attempted[i + 1..];
  }

  lemma RollbackBegins(start: Files, originals: Files, attempted: seq<Path>, attempts: seq<Attempt>)
    requires forall p | p in attempted :: p in originals && p in start
    ensures Progress(start, originals, attempted, |attempts|, |attempted|, start, [], attempts)
    ensures Recorded(attempted, |attempts|, |attempted|, [], attempts)
  {
    assert attempted[|attempted|..] == [];
    assert start == Undone(start, originals, []);
  }

  lemma RollbackDone(start: Files, originals: Files, attempted: seq<Path>, base: nat,
                     files: Files, failed: seq<Path>, attempts: seq<Attempt>)
    requires forall p | p in attempted :: p in originals && p in start
    requires Progress(start, originals, attempted, base, 0, files, failed, attempts)
    requires Recorded(attempted, base, 0, failed, attempts)
    ensures files.Keys == start.Keys && forall p | p in files :: PutBack(start, files, originals, attempted, failed, p)
    ensures base <= |attempts| && forall q | base <= q < |attempts| :: attempts[q].undo
    ensures Tried(attempts, base) == UndoOrder(attempted) && FailedUndos(attempts, base) == failed
    ensures failed == [] <==> UndoneCleanly(attempts, base, |attempts|)
    ensures forall q | base <= q < |attempts| ::
      UndoneCleanly(attempts, base, q) ==> IsUndone(start, attempts[q].after, originals, attempted)
  {
    hide PutBack, Tried, UndoOrder, FailedUndos, UndoneCleanly, IsUndone, Undone;
    assert attempted[0..] == attempted;
  }

  /** Puts every attempted path back to its trimmed original, the last one first and
      each once, whether or not others fail.  The error names exactly the paths whose
      write failed, and stays the primary one when none did. */
  method RollbackCpuWrites(dev: ControlFiles, primary: TxError, attempted: seq<Path>, originals: Files)
    returns (e: TxError)
    requires !primary.RollbackFailed?
    requires forall p | p in attempted :: p in originals && p in dev.files
    modifies dev
    ensures e == primary || (e.RollbackFailed? && e.primary == primary && e.endpoints != [])
    ensures dev.files.Keys == old(dev.files).Keys
    ensures forall p | p in dev.files ::
      PutBack(old(dev.files), dev.files, originals, attempted, Endpoints(e), p)
    ensures old(dev.attempts) <= dev.attempts && dev.failures >= old(dev.failures)
    ensures forall q | |old(dev.attempts)| <= q < |dev.attempts| :: dev.attempts[q].undo
    ensures Tried(dev.attempts, |old(dev.attempts)|) == UndoOrder(attempted)
    ensures Endpoints(e) == FailedUndos(dev.attempts, |old(dev.attempts)|)
    ensures e == primary <==> UndoneCleanly(dev.attempts, |old(dev.attempts)|, |dev.attempts|)
    ensures forall q | |old(dev.attempts)| <= q < |dev.attempts| ::
      UndoneCleanly(dev.attempts, |old(dev.attempts)|, q) ==>
        IsUndone(old(dev.files), dev.attempts[q].after, originals, attempted)
  {
    hide Progress, Recorded, Trim, PutBack, UndoneCleanly, IsUndone, Tried, UndoOrder, FailedUndos;
    ghost var base, start := |dev.attempts|, dev.files;
    var restored: set<Path> := {};
    var failed: seq<Path> := [];
    var i := |attempted|;
    RollbackBegins(start, originals, attempted, dev.attempts);
    while i > 0
      invariant 0 <= i <= |attempted|
      invariant forall p :: p in restored <==> p in attempted[i..]
      invariant old(dev.attempts) <= dev.attempts && dev.failures >= old(dev.failures)
      invariant dev.files.Keys == start.Keys
      invariant Progress(start, originals, attempted, base, i, dev.files, failed, dev.attempts)
      invariant Recorded(attempted, base, i, failed, dev.attempts)
    {
      i := i - 1;
      var path := attempted[i];
      assert attempted[i..] == [path] + attempted[i + 1..];
      if path in restored {
        ProgressSkip(start, originals, attempted, base, i, dev.files, failed, dev.attempts);
        RecordedSkip(attempted, base, i, failed, dev.attempts);
        continue;
      }
      ghost var files, attempts := dev.files, dev.attempts;
      var original := originals[path];
      var r := dev.Write(path, Trim(original), true);
      restored := restored + {path};
      ProgressStep(start, originals, attempted, base, i, files, failed, attempts, dev.files, dev.attempts, r.Ok?);
      RecordedStep(attempted, base, i, failed, attempts, Attempt(path, true, r.Ok?, dev.files));
      if r.Err? {
        failed := failed + [path];
      }
    }
    RollbackDone(start, originals, attempted, base, dev.files, failed, dev.attempts);
    e := if failed == [] then primary else RollbackFailed(primary, failed);
  }

  // ---------------------------------------------------------------- forward

  /** The paths that the first `m` writes of the batch really write. */
  ghost function Attempted(f: Files, writes: seq<CpuWrite>, m: nat): seq<Path>
    requires m <= |writes| && AllPresent(f, writes)
  {
    if m == 0 then []
    else Attempted(f, writes, m - 1)
         + if Skipped(f, writes[m - 1]) then [] else [writes[m - 1].path]
  }

  lemma {:induction false} AttemptedPaths(f: Files, writes: seq<CpuWrite>, m: nat)
    requires m <= |writes| && AllPresent(f, writes)
    ensures forall p | p in Attempted(f, writes, m) :: exists i :: 0 <= i < m && writes[i].path == p
  {
    if m > 0 {
      AttemptedPaths(f, writes, m - 1);
      forall p | p in Attempted(f, writes, m) ensures exists i :: 0 <= i < m && writes[i].path == p {
        if p in Attempted(f, writes, m - 1) {
          var i :| 0 <= i < m - 1 && writes[i].path == p;
        } else {
          assert writes[m - 1].path == p;
        }
      }
    }
  }

  lemma {:induction false} TargetsAre(writes: seq<CpuWrite>)
    ensures forall p :: p in Targets(writes) <==> Touches(writes, p)
    ensures forall p | p in Targets(writes) ::
      exists op :: op in writes && op.path == p && op.value == Targets(writes)[p]
  {
    if writes != [] {
      var front, last := writes[..|writes| - 1], writes[|writes| - 1];
      TargetsAre(front);
      assert writes == front + [last];
      forall p ensures p in Targets(writes) <==> Touches(writes, p) {
        if Touches(writes, p) {
          var op :| op in writes && op.path == p;
          assert op == last || op in front;
        }
        if Touches(front, p) {
          var op :| op in front && op.path == p;
          assert op in writes;
        }
        assert last in writes;
      }
    }
  }

  lemma {:induction false} CarriedKeys(f: Files, writes: seq<CpuWrite>, m: nat)
    requires m <= |writes| && AllPresent(f, writes)
    ensures Carried(f, writes, m).Keys == f.Keys
  {
    if m > 0 { CarriedKeys(f, writes, m - 1); }
  }

  lemma {:induction false} CarriedElsewhere(f: Files, writes: seq<CpuWrite>, m: nat, p: Path)
    requires m <= |writes| && p in f
    requires AllPresent(f, writes)
    requires p !in Attempted(f, writes, m)
    ensures p in Carried(f, writes, m) && Carried(f, writes, m)[p] == f[p]
  {
    if m > 0 { CarriedElsewhere(f, writes, m - 1, p); }
  }

  lemma ContentsUpdate(f: Files, p: Path, v: string)
    ensures Contents(f[p := v]) == Contents(f)[p := Trim(v)]
  {
  }

  lemma UndoneLast(now: Files, f: Files, p: Path, paths: seq<Path>)
    requires p in now && p in f
    ensures Undone(now, f, paths + [p]) == Undone(now[p := Line(Trim(f[p]))], f, paths)
  {
  }

  lemma RestoredLine(s: string)
    ensures Trim(Line(Trim(s))) == Trim(s)
  {
    TrimIsTight(s);
    TrimLine(Trim(s));
  }

  lemma PutBackMap(was: map<Path, string>, p: Path, x: string, y: string)
    requires p in was && was[p] == y
    ensures was[p := y] == was && was[p := x][p := y] == was
  {
  }

  /** Putting the last written path back leads to the stage before it. */
  lemma PutBackStage(f: Files, writes: seq<CpuWrite>, k: nat, now: Files, v: string)
    requires 0 < k <= |writes| && DistinctPaths(writes) && AllPresent(f, writes)
    requires Contents(now) == Staged(f, writes, k) || Contents(now) == Staged(f, writes, k - 1)
    requires !Skipped(f, writes[k - 1])
    requires Trim(v) == Trim(f[writes[k - 1].path])
    ensures Contents(now[writes[k - 1].path := v]) == Staged(f, writes, k - 1)
  {
    var p := writes[k - 1].path;
    var was := Carried(f, writes, k - 1);
    AttemptedPaths(f, writes, k - 1);
    CarriedElsewhere(f, writes, k - 1, p);
    ContentsUpdate(now, p, v);
    ContentsUpdate(was, p, Line(writes[k - 1].value));
    PutBackMap(Contents(was), p, Trim(Line(writes[k - 1].value)), Trim(v));
  }

  /** The files are exactly at stage `k` of the batch. */
  ghost predicate AtStage(f: Files, writes: seq<CpuWrite>, k: nat, now: Files) {
    k <= |writes| && now.Keys == f.Keys && Contents(now) == Staged(f, writes, k)
  }

  /** Putting a suffix of the written paths back leads to an earlier stage. */
  lemma {:induction false} UndoneIsStage(f: Files, writes: seq<CpuWrite>, k: nat, a: nat, now: Files)
    requires DistinctPaths(writes) && AllPresent(f, writes) && AtStage(f, writes, k, now)
    requires a <= |Attempted(f, writes, k)|
    ensures IsStage(f, writes, Undone(now, f, Attempted(f, writes, k)[a..]))
    decreases k, 1
  {
    if a == |Attempted(f, writes, k)| {
      assert Attempted(f, writes, k)[a..] == [];
      NothingUndone(now, f);
    } else if Skipped(f, writes[k - 1]) {
      assert Attempted(f, writes, k) == Attempted(f, writes, k - 1);
      UndoneIsStage(f, writes, k - 1, a, now);
    } else {
      UndoneAfterFailure(f, writes, k, a, now);
    }
  }

  lemma NothingUndone(now: Files, f: Files)
    ensures Undone(now, f, []) == now
  {
  }

  /** The same when the last written path may not have taken its value. */
  lemma {:induction false} UndoneAfterFailure(f: Files, writes: seq<CpuWrite>, k: nat, a: nat, now: Files)
    requires 0 < k <= |writes| && DistinctPaths(writes) && AllPresent(f, writes)
    requires AtStage(f, writes, k, now) || AtStage(f, writes, k - 1, now)
    requires !Skipped(f, writes[k - 1])
    requires a <= |Attempted(f, writes, k)|
    ensures IsStage(f, writes, Undone(now, f, Attempted(f, writes, k)[a..]))
    decreases k, 0
  {
    if a == |Attempted(f, writes, k)| {
      assert Attempted(f, writes, k)[a..] == [];
      NothingUndone(now, f);
    } else {
      var p := writes[k - 1].path;
      var before, v := Attempted(f, writes, k - 1), Line(Trim(f[p]));
      UndoneOneBack(f, writes, k, now, v);
      assert Attempted(f, writes, k) == before + [p];
      assert Undone(now, f, Attempted(f, writes, k)[a..]) == Undone(now[p := v], f, before[a..]) by {
        LastDropped(before, p, a);
        UndoneLast(now, f, p, before[a..]);
      }
      UndoneIsStage(f, writes, k - 1, a, now[p := v]);
    }
  }

  lemma UndoneOneBack(f: Files, writes: seq<CpuWrite>, k: nat, now: Files, v: string)
    requires 0 < k <= |writes| && DistinctPaths(writes) && AllPresent(f, writes)
    requires AtStage(f, writes, k, now) || AtStage(f, writes, k - 1, now)
    requires !Skipped(f, writes[k - 1]) && v == Line(Trim(f[writes[k - 1].path]))
    ensures AtStage(f, writes, k - 1, now[writes[k - 1].path := v])
  {
    RestoredLine(f[writes[k - 1].path]);
    PutBackStage(f, writes, k, now, v);
  }

  lemma LastDropped(before: seq<Path>, p: Path, a: nat)
    requires a <= |before|
    ensures (before + [p])[a..] == before[a..] + [p]
  {
  }

  // ---------------------------------------------------------------- the transaction

  /** Errors found before anything is written. */
  predicate BeforeWriting(e: TxError) {
    e.SnapshotFailed? || e.ChangedBeforeUpdate?
  }

  ghost predicate Snapshot(f: Files, writes: seq<CpuWrite>, originals: Files) {
    && (forall p | p in originals :: p in f && originals[p] == f[p])
    && (forall i | 0 <= i < |writes| :: writes[i].path in originals)
  }

  ghost predicate Holds(f: Files, targets: map<Path, string>, p: Path) {
    p in f && p in targets && Trim(f[p]) == targets[p]
  }

  ghost predicate AllHold(f: Files, targets: map<Path, string>) {
    forall p | p in targets :: Holds(f, targets, p)
  }

  /** The write phase has come to write `k`. */
  ghost predicate Written(f: Files, writes: seq<CpuWrite>, k: nat, now: Files) {
    k <= |writes| && now == Carried(f, writes, k)
  }

  /** The write phase stopped at write `k - 1`, which may or may not have landed. */
  ghost predicate Stopped(f: Files, writes: seq<CpuWrite>, k: nat, now: Files) {
    0 < k <= |writes| && !Skipped(f, writes[k - 1])
    && (now == Carried(f, writes, k) || now == Carried(f, writes, k - 1))
  }

  /** Everything recorded from `base` up to the first failed undoing write is a stage. */
  ghost predicate StagesOnly(f: Files, writes: seq<CpuWrite>, base: nat, attempts: seq<Attempt>) {
    base <= |attempts| &&
    forall q | base <= q < |attempts| :: UndoneCleanly(attempts, base, q) ==> IsStage(f, writes, attempts[q].after)
  }

  lemma NoStagesYet(f: Files, writes: seq<CpuWrite>, attempts: seq<Attempt>)
    ensures StagesOnly(f, writes, |attempts|, attempts)
  {
  }

  lemma StagesExtend(f: Files, writes: seq<CpuWrite>, base: nat, attempts: seq<Attempt>, next: Attempt)
    requires StagesOnly(f, writes, base, attempts) && IsStage(f, writes, next.after)
    ensures StagesOnly(f, writes, base, attempts + [next])
  {
    var all := attempts + [next];
    forall q | base <= q < |all| && UndoneCleanly(all, base, q) ensures IsStage(f, writes, all[q].after) {
      if q < |attempts| {
        assert forall i | base <= i < q :: all[i] == attempts[i];
        assert UndoneCleanly(attempts, base, q);
      }
    }
  }

  /** What a rollback records are stages, up to its first failing write. */
  lemma RollbackKeepsStages(f: Files, writes: seq<CpuWrite>, k: nat, start: Files, originals: Files,
                            base: nat, was: seq<Attempt>, now: seq<Attempt>)
    requires AllPresent(f, writes) && DistinctPaths(writes) && Snapshot(f, writes, originals)
    requires Written(f, writes, k, start) || Stopped(f, writes, k, start)
    requires StagesOnly(f, writes, base, was) && was <= now
    requires forall q | |was| <= q < |now| ::
      UndoneCleanly(now, |was|, q) ==> IsUndone(start, now[q].after, originals, Attempted(f, writes, k))
    ensures StagesOnly(f, writes, base, now)
  {
    var paths := Attempted(f, writes, k);
    AttemptedPaths(f, writes, k);
    forall q | base <= q < |now| && UndoneCleanly(now, base, q) ensures IsStage(f, writes, now[q].after) {
      if q < |was| {
        assert forall i | base <= i < q :: now[i] == was[i];
        assert UndoneCleanly(was, base, q);
      } else {
        assert UndoneCleanly(now, |was|, q);
        CarriedKeys(f, writes, k);
        if k > 0 { CarriedKeys(f, writes, k - 1); }
        var a: nat :| a <= |paths| && now[q].after == Undone(start, originals, paths[a..]);
        assert forall p | p in paths[a..] :: p in paths;
        SameOriginals(f, writes, start, originals, paths[a..]);
        if Written(f, writes, k, start) {
          UndoneIsStage(f, writes, k, a, start);
        } else {
          UndoneAfterFailure(f, writes, k, a, start);
        }
      }
    }
  }

  lemma SameOriginals(f: Files, writes: seq<CpuWrite>, start: Files, originals: Files, paths: seq<Path>)
    requires Snapshot(f, writes, originals)
    requires forall p | p in paths :: p in originals
    ensures Undone(start, originals, paths) == Undone(start, f, paths)
  {
  }

  /** After a rollback only endpoints it names can differ from before the batch. */
  lemma RollbackRestores(f: Files, writes: seq<CpuWrite>, k: nat, start: Files, originals: Files,
                         end: Files, failed: seq<Path>)
    requires AllPresent(f, writes) && Snapshot(f, writes, originals)
    requires Written(f, writes, k, start) || Stopped(f, writes, k, start)
    requires end.Keys == start.Keys
    requires forall p | p in Attempted(f, writes, k) :: p in originals
    requires forall p | p in end :: PutBack(start, end, originals, Attempted(f, writes, k), failed, p)
    ensures end.Keys == f.Keys
    ensures forall p | p in f && p !in failed :: Trim(end[p]) == Trim(f[p])
  {
    CarriedKeys(f, writes, k);
    if k > 0 { CarriedKeys(f, writes, k - 1); }
    forall p | p in f && p !in failed ensures Trim(end[p]) == Trim(f[p]) {
      UnattemptedKept(f, writes, k, start, p);
      assert PutBack(start, end, originals, Attempted(f, writes, k), failed, p);
      RestoredLine(f[p]);
    }
  }

  lemma UnattemptedKept(f: Files, writes: seq<CpuWrite>, k: nat, start: Files, p: Path)
    requires AllPresent(f, writes) && p in f && (Written(f, writes, k, start) || Stopped(f, writes, k, start))
    ensures p in Attempted(f, writes, k) || (p in start && start[p] == f[p])
  {
    if p !in Attempted(f, writes, k) {
      CarriedElsewhere(f, writes, k, p);
      if k > 0 { CarriedElsewhere(f, writes, k - 1, p); }
    }
  }

  /** A batch on distinct paths leaves every path with its requested value. */
  lemma {:induction false} StageHoldsTarget(f: Files, writes: seq<CpuWrite>, m: nat, i: nat)
    requires DistinctPaths(writes) && AllPresent(f, writes) && i < m <= |writes| && Tight(writes[i].value)
    ensures writes[i].path in Carried(f, writes, m)
    ensures Trim(Carried(f, writes, m)[writes[i].path]) == writes[i].value
  {
    hide Trim;
    TrimLine(writes[i].value);
    if i < m - 1 {
      StageHoldsTarget(f, writes, m - 1, i);
    } else {
      AttemptedPaths(f, writes, i);
      CarriedElsewhere(f, writes, i, writes[i].path);
    }
  }

  ghost predicate AllTight(writes: seq<CpuWrite>) {
    forall op | op in writes :: Tight(op.value)
  }

  /** No path that the batch asks in the end for its present value is asked for
      another value on the way. */
  ghost predicate NoWayBack(f: Files, writes: seq<CpuWrite>) {
    forall p, op | p in f && p in Targets(writes) && Targets(writes)[p] == Trim(f[p]) && op in writes && op.path == p ::
      op.value == Trim(f[p])
  }

  /** The last of the first `m` requests for path `p` that differs from `was`. */
  ghost function LastOther(writes: seq<CpuWrite>, m: nat, p: Path, was: string): (v: Option<string>)
    requires m <= |writes|
    ensures v.Some? ==> v.value != was
    ensures v.None? <==> forall i | 0 <= i < m && writes[i].path == p :: writes[i].value == was
  {
    if m == 0 then None
    else if writes[m - 1].path == p && writes[m - 1].value != was then Some(writes[m - 1].value)
    else LastOther(writes, m - 1, p, was)
  }

  /** Only requests that differ from the present value are carried out. */
  lemma {:induction false} CarriedIsLastOther(f: Files, writes: seq<CpuWrite>, m: nat, p: Path)
    requires m <= |writes| && AllPresent(f, writes) && AllTight(writes) && p in f
    ensures p in Carried(f, writes, m)
    ensures Trim(Carried(f, writes, m)[p]) == LastOther(writes, m, p, Trim(f[p])).GetOr(Trim(f[p]))
  {
    hide Trim;
    if m > 0 {
      CarriedIsLastOther(f, writes, m - 1, p);
      assert writes[m - 1] in writes;
      TrimLine(writes[m - 1].value);
    }
  }

  lemma {:induction false} TargetIsLastOther(writes: seq<CpuWrite>, m: nat, p: Path, was: string)
    requires m <= |writes| && p in Targets(writes[..m]) && Targets(writes[..m])[p] != was
    ensures LastOther(writes, m, p, was) == Some(Targets(writes[..m])[p])
  {
    if m > 0 {
      assert writes[..m][..m - 1] == writes[..m - 1];
      if writes[m - 1].path != p { TargetIsLastOther(writes, m - 1, p, was); }
    }
  }

  /** Main result: a batch leaves every path with what is asked for last exactly when
      no path that ends with its present value is asked for another one before. */
  lemma RetainsExactly(f: Files, writes: seq<CpuWrite>)
    requires AllPresent(f, writes) && AllTight(writes)
    ensures Retains(f, writes) <==> NoWayBack(f, writes)
  {
    var n, end := |writes|, Staged(f, writes, |writes|);
    assert writes[..n] == writes;
    forall p | p in Targets(writes)
      ensures p in f && p in end
      ensures end[p] == Targets(writes)[p] <==>
        (Targets(writes)[p] == Trim(f[p]) ==> forall op | op in writes && op.path == p :: op.value == Trim(f[p]))
    {
      TargetsAre(writes);
      var op :| op in writes && op.path == p;
      CarriedIsLastOther(f, writes, n, p);
      if Targets(writes)[p] != Trim(f[p]) { TargetIsLastOther(writes, n, p, Trim(f[p])); }
    }
  }

  /** So on distinct paths nothing but a failure can spoil a batch. */
  lemma DistinctRetains(f: Files, writes: seq<CpuWrite>)
    requires DistinctPaths(writes) && AllPresent(f, writes) && AllTight(writes)
    ensures NoWayBack(f, writes) && Retains(f, writes)
  {
    TargetsAre(writes);
    RetainsExactly(f, writes);
  }

  /** On a repeated path the skip test can spoil it: asking for a new value and
      then for the old one writes the new value and never the old one. */
  lemma RepeatedPathSpoils(f: Files, p: Path, other: string)
    requires p in f && other != Trim(f[p]) && Tight(other)
    ensures !Retains(f, [CpuWrite(p, None, other), CpuWrite(p, None, Trim(f[p]))])
  {
    var writes := [CpuWrite(p, None, other), CpuWrite(p, None, Trim(f[p]))];
    TrimIsTight(f[p]);
    RetainsExactly(f, writes);
    assert p in Targets(writes) && Targets(writes)[p] == Trim(f[p]);
    assert writes[0] in writes;
  }

  /** Nothing recorded since `base` undoes an earlier write. */
  ghost predicate ForwardOnly(attempts: seq<Attempt>, base: nat) {
    base <= |attempts| && forall q | base <= q < |attempts| :: !attempts[q].undo
  }

  /** The error names exactly the endpoints whose undoing write failed, and is about
      the rollback exactly when there are any. */
  ghost predicate NamesFailures(attempts: seq<Attempt>, base: nat, e: TxError) {
    && base <= |attempts|
    && Endpoints(e) == FailedUndos(attempts, base)
    && (e.RollbackFailed? <==> !UndoneCleanly(attempts, base, |attempts|))
  }

  /** After a failed batch only endpoints that the error names may have changed. */
  ghost predicate RolledBack(f: Files, end: Files, e: TxError) {
    && !BeforeWriting(e)
    && end.Keys == f.Keys
    && forall p | p in f && (e.RollbackFailed? ==> p !in e.endpoints) :: Trim(end[p]) == Trim(f[p])
  }

  /** Every file has its contents from before, up to surrounding white space. */
  ghost predicate AllRestored(f: Files, end: Files) {
    end.Keys == f.Keys && forall p | p in f :: Trim(end[p]) == Trim(f[p])
  }

  lemma SnapshotStep(f: Files, writes: seq<CpuWrite>, k: nat, originals: Files)
    requires k < |writes| && Snapshot(f, writes[..k], originals) && ExpectationsMet(f, writes[..k])
    requires var op := writes[k];
      op.path in f && (op.expected.Some? ==> Trim(f[op.path]) == op.expected.value)
    ensures Snapshot(f, writes[..k + 1], originals[writes[k].path := f[writes[k].path]])
    ensures ExpectationsMet(f, writes[..k + 1])
    ensures Targets(writes[..k + 1]) == Targets(writes[..k])[writes[k].path := writes[k].value]
  {
    var front, all := writes[..k], writes[..k + 1];
    assert all == front + [writes[k]] && all[..|all| - 1] == front;
    forall i | 0 <= i < |all| ensures all[i].path in originals[writes[k].path := f[writes[k].path]] {
      if i < k { assert all[i] == front[i]; }
    }
  }

  method TakeSnapshot(dev: ControlFiles, writes: seq<CpuWrite>)
    returns (r: Result<(Files, map<Path, string>), TxError>)
    modifies dev`failures
    ensures dev.failures >= old(dev.failures)
    ensures r.Ok? ==> Snapshot(dev.files, writes, r.value.0) && r.value.1 == Targets(writes)
                      && ExpectationsMet(dev.files, writes)
    ensures r.Err? ==> BeforeWriting(r.error)
                       && (dev.failures == old(dev.failures) ==> !ExpectationsMet(dev.files, writes))
  {
    hide Trim;
    var originals: Files := map[];
    var targets: map<Path, string> := map[];
    var k := 0;
    while k < |writes|
      invariant 0 <= k <= |writes| && dev.failures >= old(dev.failures)
      invariant Snapshot(dev.files, writes[..k], originals)
      invariant targets == Targets(writes[..k])
      invariant ExpectationsMet(dev.files, writes[..k])
    {
      var operation := writes[k];
      assert operation in writes;
      var current;
      if operation.path in originals {
        current := originals[operation.path];
      } else {
        var read := dev.Read(operation.path);
        if read.Err? {
          return Err(SnapshotFailed(operation.path));
        }
        current := read.value;
        originals := originals[operation.path := current];
      }
      if operation.expected.Some? && Trim(current) != operation.expected.value {
        return Err(ChangedBeforeUpdate(operation.path));
      }
      targets := targets[operation.path := operation.value];
      SnapshotStep(dev.files, writes, k, originals);
      assert originals[operation.path := current] == originals;
      k := k + 1;
    }
    assert writes[..k] == writes;
    r := Ok((originals, targets));
  }

  lemma RollbackEnds(f: Files, writes: seq<CpuWrite>, k: nat, start: Files, originals: Files, end: Files, e: TxError)
    requires !BeforeWriting(e) && AllPresent(f, writes) && Snapshot(f, writes, originals)
    requires Written(f, writes, k, start) || Stopped(f, writes, k, start)
    requires end.Keys == start.Keys && forall p | p in Attempted(f, writes, k) :: p in originals
    requires forall p | p in end :: PutBack(start, end, originals, Attempted(f, writes, k), Endpoints(e), p)
    ensures RolledBack(f, end, e)
  {
    RollbackRestores(f, writes, k, start, originals, end, Endpoints(e));
  }

  /** What a rollback names holds for the whole batch: before it nothing was undone. */
  lemma RollbackNames(was: seq<Attempt>, now: seq<Attempt>, base: nat, primary: TxError, e: TxError)
    requires ForwardOnly(was, base) && was <= now && !primary.RollbackFailed?
    requires e == primary || e.RollbackFailed?
    requires Endpoints(e) == FailedUndos(now, |was|) && (e == primary <==> UndoneCleanly(now, |was|, |now|))
    ensures NamesFailures(now, base, e)
  {
    ForwardFailsNoUndo(now, base, |was|);
    CleanMeansNoneFailed(now, base);
    CleanMeansNoneFailed(now, |was|);
  }

  method RollBack(dev: ControlFiles, primary: TxError, attempted: seq<Path>, originals: Files,
                  ghost f: Files, ghost writes: seq<CpuWrite>, ghost k: nat, ghost base: nat)
    returns (e: TxError)
    requires !primary.RollbackFailed? && !BeforeWriting(primary)
    requires AllPresent(f, writes) && Snapshot(f, writes, originals)
    requires Written(f, writes, k, dev.files) || Stopped(f, writes, k, dev.files)
    requires attempted == Attempted(f, writes, k)
    requires DistinctPaths(writes) ==> StagesOnly(f, writes, base, dev.attempts)
    requires ForwardOnly(dev.attempts, base)
    modifies dev
    ensures RolledBack(f, dev.files, e) && NamesFailures(dev.attempts, base, e)
    ensures old(dev.attempts) <= dev.attempts && dev.failures >= old(dev.failures)
    ensures DistinctPaths(writes) ==> StagesOnly(f, writes, base, dev.attempts)
  {
    hide NamesFailures, FailedUndos, UndoneCleanly, Trim, PutBack, IsUndone, RolledBack, StagesOnly;
    ghost var start, was := dev.files, dev.attempts;
    AttemptedPaths(f, writes, k);
    CarriedKeys(f, writes, k);
    if k > 0 { CarriedKeys(f, writes, k - 1); }
    e := RollbackCpuWrites(dev, primary, attempted, originals);
    RollbackEnds(f, writes, k, start, originals, dev.files, e);
    RollbackNames(was, dev.attempts, base, primary, e);
    if DistinctPaths(writes) {
      RollbackKeepsStages(f, writes, k, start, originals, base, was, dev.attempts);
    }
  }

  lemma WriteStep(f: Files, writes: seq<CpuWrite>, k: nat, base: nat,
                  now: Files, attempts: seq<Attempt>, now': Files, attempts': seq<Attempt>, ok: bool)
    requires k < |writes| && AllPresent(f, writes) && Written(f, writes, k, now) && !Skipped(f, writes[k])
    requires now' == now[writes[k].path := Line(writes[k].value)] || (!ok && now' == now)
    requires attempts' == attempts + [Attempt(writes[k].path, false, ok, now')]
    requires DistinctPaths(writes) ==> StagesOnly(f, writes, base, attempts)
    ensures Attempted(f, writes, k + 1) == Attempted(f, writes, k) + [writes[k].path]
    ensures if ok then Written(f, writes, k + 1, now') else Stopped(f, writes, k + 1, now')
    ensures DistinctPaths(writes) ==> StagesOnly(f, writes, base, attempts')
  {
    assert IsStage(f, writes, now') by {
      assert Contents(now') == Staged(f, writes, k) || Contents(now') == Staged(f, writes, k + 1);
    }
    if DistinctPaths(writes) { StagesExtend(f, writes, base, attempts, attempts'[|attempts|]); }
  }

  method WriteAll(dev: ControlFiles, writes: seq<CpuWrite>, originals: Files)
    returns (r: Result<seq<Path>, TxError>)
    requires AllPresent(dev.files, writes) && Snapshot(dev.files, writes, originals)
    modifies dev
    ensures dev.failures >= old(dev.failures) && old(dev.attempts) <= dev.attempts
    ensures r.Ok? ==> r.value == Attempted(old(dev.files), writes, |writes|)
                      && Written(old(dev.files), writes, |writes|, dev.files)
    ensures r.Ok? ==> ForwardOnly(dev.attempts, |old(dev.attempts)|)
    ensures r.Err? ==> RolledBack(old(dev.files), dev.files, r.error)
                       && NamesFailures(dev.attempts, |old(dev.attempts)|, r.error)
                       && (dev.failures > old(dev.failures) || !AllTight(writes))
    ensures DistinctPaths(writes) ==> StagesOnly(old(dev.files), writes, |old(dev.attempts)|, dev.attempts)
  {
    hide Trim, StagesOnly;
    ghost var f, base := dev.files, |dev.attempts|;
    NoStagesYet(f, writes, dev.attempts);
    var attempted: seq<Path> := [];
    var failed: Option<TxError> := None;
    var k := 0;
    while k < |writes| && failed.None?
      invariant 0 <= k <= |writes|
      invariant attempted == Attempted(f, writes, k)
      invariant failed.None? ==> Written(f, writes, k, dev.files)
      invariant failed.Some? ==> failed.value.WriteFailed? && Stopped(f, writes, k, dev.files)
      invariant dev.failures >= old(dev.failures) && old(dev.attempts) <= dev.attempts
      invariant failed.Some? ==> dev.failures > old(dev.failures) || !AllTight(writes)
      invariant DistinctPaths(writes) ==> StagesOnly(f, writes, base, dev.attempts)
      invariant ForwardOnly(dev.attempts, base)
      decreases |writes| - k
    {
      var operation := writes[k];
      if Trim(originals[operation.path]) == operation.value {
        assert Attempted(f, writes, k + 1) == Attempted(f, writes, k) + [];
      } else {
        CarriedKeys(f, writes, k);
        attempted := attempted + [operation.path];
        ghost var before, records := dev.files, dev.attempts;
        var wrote := dev.Write(operation.path, operation.value, false);
        WriteStep(f, writes, k, base, before, records, dev.files, dev.attempts, wrote.Ok?);
        if wrote.Err? {
          assert operation in writes;
          failed := Some(WriteFailed(operation.path));
        }
      }
      k := k + 1;
    }
    if failed.Some? {
      var e := RollBack(dev, failed.value, attempted, originals, f, writes, k, base);
      return Err(e);
    }
    r := Ok(attempted);
  }

  /** Reads every target back, in any order, up to the first that cannot be read or
      is not held. */
  method FindUnheld(dev: ControlFiles, targets: map<Path, string>) returns (e: Option<TxError>)
    requires forall p | p in targets :: p in dev.files
    modifies dev`failures
    ensures dev.failures >= old(dev.failures)
    ensures e.None? ==> AllHold(dev.files, targets)
    ensures e.Some? ==> (e.value.VerifyFailed? || e.value.NotRetained?)
                        && (dev.failures > old(dev.failures) || !AllHold(dev.files, targets))
  {
    hide Trim;
    var remaining := targets.Keys;
    while remaining != {}
      invariant remaining <= targets.Keys && dev.failures >= old(dev.failures)
      invariant forall p | p in targets && p !in remaining :: Holds(dev.files, targets, p)
      decreases |remaining|
    {
      var path :| path in remaining;
      remaining := remaining - {path};
      var read := dev.Read(path);
      if read.Err? {
        return Some(VerifyFailed(path));
      }
      if Trim(read.value) != targets[path] {
        assert !Holds(dev.files, targets, path);
        return Some(NotRetained(path));
      }
    }
    e := None;
  }

  method VerifyAll(dev: ControlFiles, targets: map<Path, string>, attempted: seq<Path>, originals: Files,
                   ghost f: Files, ghost writes: seq<CpuWrite>, ghost base: nat)
    returns (r: Result<(), TxError>)
    requires AllPresent(f, writes) && Snapshot(f, writes, originals) && targets == Targets(writes)
    requires attempted == Attempted(f, writes, |writes|) && Written(f, writes, |writes|, dev.files)
    requires DistinctPaths(writes) ==> StagesOnly(f, writes, base, dev.attempts)
    requires ForwardOnly(dev.attempts, base)
    modifies dev
    ensures dev.failures >= old(dev.failures) && old(dev.attempts) <= dev.attempts
    ensures r.Ok? ==> dev.files == old(dev.files) && AllHold(dev.files, targets)
    ensures r.Ok? ==> dev.attempts == old(dev.attempts)
    ensures r.Err? ==> RolledBack(f, dev.files, r.error) && NamesFailures(dev.attempts, base, r.error)
                       && (dev.failures > old(dev.failures) || !AllHold(old(dev.files), targets))
    ensures DistinctPaths(writes) ==> StagesOnly(f, writes, base, dev.attempts)
  {
    hide Trim;
    TargetsArePresent(f, writes);
    CarriedKeys(f, writes, |writes|);
    var unheld := FindUnheld(dev, targets);
    if unheld.Some? {
      var e := RollBack(dev, unheld.value, attempted, originals, f, writes, |writes|, base);
      return Err(e);
    }
    r := Ok(());
  }

  lemma TargetsArePresent(f: Files, writes: seq<CpuWrite>)
    requires AllPresent(f, writes)
    ensures forall p | p in Targets(writes) :: p in f
  {
    TargetsAre(writes);
    forall p | p in Targets(writes) ensures p in f {
      var op :| op in writes && op.path == p;
    }
  }

  /** The files hold what is asked for exactly when the batch retains it. */
  lemma HoldsIsRetains(f: Files, writes: seq<CpuWrite>, now: Files)
    requires AllPresent(f, writes) && Written(f, writes, |writes|, now)
    ensures Retains(f, writes) <==> AllHold(now, Targets(writes))
  {
    HoldsIsEqual(Staged(f, writes, |writes|), now, Targets(writes));
  }

  lemma HoldsIsEqual(contents: map<Path, string>, now: Files, targets: map<Path, string>)
    requires contents == Contents(now)
    ensures Matches(contents, targets) <==> AllHold(now, targets)
  {
    assert forall p :: p in contents <==> p in now;
  }

  lemma UntouchedUnwritten(f: Files, writes: seq<CpuWrite>, now: Files)
    requires AllPresent(f, writes) && Written(f, writes, |writes|, now)
    ensures forall p | p in f && !Touches(writes, p) :: p in now && now[p] == f[p]
  {
    AttemptedPaths(f, writes, |writes|);
    forall p | p in f && !Touches(writes, p) ensures p in now && now[p] == f[p] {
      CarriedElsewhere(f, writes, |writes|, p);
    }
  }

  /** Applies the whole batch or puts back what it wrote.  Success means every
      target holds its requested value; an error before the write phase means
      nothing was written; after any other error every path whose undoing write did
      not fail is back to its trimmed original, and the error names exactly the
      others.  When nothing fails, a batch of trimmed values whose expectations are
      met succeeds exactly when it asks no path for its present value after another
      one.  On distinct paths, all files it ever leaves behind, also while rolling
      back, are stages of the batch, up to the first failing rollback write. */
  method ApplyTransactionalWrites(dev: ControlFiles, writes: seq<CpuWrite>) returns (r: Result<(), TxError>)
    modifies dev
    ensures old(dev.attempts) <= dev.attempts
    ensures r.Ok? ==> ExpectationsMet(old(dev.files), writes) && dev.files.Keys == old(dev.files).Keys
    ensures r.Ok? ==> AllHold(dev.files, Targets(writes))
    ensures r.Ok? ==> forall p | p in dev.files && !Touches(writes, p) :: dev.files[p] == old(dev.files)[p]
    ensures r.Err? && BeforeWriting(r.error) ==> dev.files == old(dev.files) && dev.attempts == old(dev.attempts)
    ensures r.Err? && !BeforeWriting(r.error) ==>
      && ExpectationsMet(old(dev.files), writes) && RolledBack(old(dev.files), dev.files, r.error)
      && NamesFailures(dev.attempts, |old(dev.attempts)|, r.error)
    ensures r.Ok? ==> ForwardOnly(dev.attempts, |old(dev.attempts)|)
    ensures r.Err? && UndoneCleanly(dev.attempts, |old(dev.attempts)|, |dev.attempts|) ==>
      AllRestored(old(dev.files), dev.files)
    ensures r.Ok? ==> Retains(old(dev.files), writes) && (AllTight(writes) ==> NoWayBack(old(dev.files), writes))
    ensures ExpectationsMet(old(dev.files), writes) && AllTight(writes) && NoWayBack(old(dev.files), writes) ==>
      r.Ok? || dev.failures > old(dev.failures)
    ensures DistinctPaths(writes) ==> StagesOnly(old(dev.files), writes, |old(dev.attempts)|, dev.attempts)
  {
    ghost var f, base := dev.files, |dev.attempts|;
    var snapshot := TakeSnapshot(dev, writes);
    if snapshot.Err? {
      return Err(snapshot.error);
    }
    var (originals, targets) := snapshot.value;
    var wrote := WriteAll(dev, writes, originals);
    if wrote.Err? {
      return Err(wrote.error);
    }
    HoldsIsRetains(f, writes, dev.files);
    if AllTight(writes) { RetainsExactly(f, writes); }
    CarriedKeys(f, writes, |writes|);
    UntouchedUnwritten(f, writes, dev.files);
    r := VerifyAll(dev, targets, wrote.value, originals, f, writes, base);
  }
}
