/**
 The apply loop in the form the program has it (internal/applypatch/apply.go):
 methods that change the store and the delta step by step. Each is proved to
 compute the step function of the same name in `PatchDelta`, and the loop
 inherits what is proved there about whole runs.
 */
module ApplyHunks {

  import opened PatchTypes
  import opened FileSystem
  import opened Replacements
  import opened PatchDelta
  import opened PatchEffect
  import OrdinaryFiles

  /** The delta under construction. */
  class Recorder {
    var changes: seq<Change>
    var exact: bool

    constructor ()
      ensures changes == [] && exact
    {
      changes, exact := [], true;
    }
  }

  /** Paths as spelled in the patch, for the summary. */
  datatype AffectedPaths = AffectedPaths(added: seq<string>, modified: seq<string>, deleted: seq<string>)

  /** The summary of hunks that all succeeded; a moved file is listed under its destination. */
  function Affected(hunks: seq<Hunk>): AffectedPaths {
    if hunks == [] then AffectedPaths([], [], [])
    else Note(Affected(hunks[..|hunks| - 1]), hunks[|hunks| - 1])
  }

  function TargetPath(hunk: Hunk): string {
    if hunk.UpdateFile? && hunk.movePath.Some? then hunk.movePath.value else hunk.path
  }

  function Note(paths: AffectedPaths, hunk: Hunk): AffectedPaths {
    match hunk
    case AddFile(_, _) => paths.(added := paths.added + [TargetPath(hunk)])
    case DeleteFile(_) => paths.(deleted := paths.deleted + [TargetPath(hunk)])
    case UpdateFile(_, _, _) => paths.(modified := paths.modified + [TargetPath(hunk)])
  }

  /** The paths of the added files, as spelled in the patch. */
  function AddedPaths(hunks: seq<Hunk>): seq<string> {
    if hunks == [] then []
    else AddedPaths(hunks[..|hunks| - 1]) + match hunks[|hunks| - 1] case AddFile(path, _) => [path] case _ => []
  }

  function DeletedPaths(hunks: seq<Hunk>): seq<string> {
    if hunks == [] then []
    else DeletedPaths(hunks[..|hunks| - 1]) + match hunks[|hunks| - 1] case DeleteFile(path) => [path] case _ => []
  }

  /** The paths of the updated files, or where they were moved. */
  function ModifiedPaths(hunks: seq<Hunk>): seq<string> {
    if hunks == [] then []
    else
      ModifiedPaths(hunks[..|hunks| - 1]) +
      match hunks[|hunks| - 1]
      case UpdateFile(path, None, _) => [path]
      case UpdateFile(_, Some(destination), _) => [destination]
      case _ => []
  }

  /** The summary lists each path once for every hunk of its kind, in order. */
  lemma {:induction false} AffectedMeans(hunks: seq<Hunk>)
    ensures Affected(hunks) == AffectedPaths(AddedPaths(hunks), ModifiedPaths(hunks), DeletedPaths(hunks))
  {
    if hunks != [] {
      var before := hunks[..|hunks| - 1];
      AffectedMeans(before);
      assert AddedPaths(before) + [] == AddedPaths(before);
      assert DeletedPaths(before) + [] == DeletedPaths(before);
      assert ModifiedPaths(before) + [] == ModifiedPaths(before);
    }
  }

  method NoteExistingPathDeltaSupport(fs: Store, path: Path, delta: Recorder)
    modifies fs, delta`exact
    ensures (delta.exact, fs.disk) == NoteExisting(old(fs.disk), path, old(delta.exact))
  {
    var meta := fs.Stat(path);
    match meta
    case Ok(m) =>
      if !(m.isFile && !m.isSymlink) {
        delta.exact := false;
      }
    case Err(NotFound) =>
    case Err(OtherError) =>
      delta.exact := false;
  }

  method ReadOptionalFileTextForDelta(fs: Store, path: Path, delta: Recorder) returns (r: Option<string>)
    modifies fs, delta`exact
    ensures (r, delta.exact, fs.disk) == ReadOptional(old(fs.disk), path, old(delta.exact))
  {
    NoteExistingPathDeltaSupport(fs, path, delta);
    var content := fs.ReadText(path);
    match content
    case Ok(text) => r := Some(text);
    case Err(NotFound) => r := None;
    case Err(OtherError) =>
      delta.exact := false;
      r := None;
  }

  method WriteFileWithMissingParentRetry(fs: Store, path: Path, text: string) returns (ok: bool)
    modifies fs
    ensures (ok, fs.disk) == WriteWithRetry(old(fs.disk), path, text)
  {
    var err := fs.Write(path, text);
    if err.None? {
      return true;
    }
    if err.value != NotFound {
      return false;
    }
    var parent := ParentDir(path);
    if parent.Some? {
      var mkErr := fs.MakeDirs(parent.value);
      if mkErr.Some? {
        return false;
      }
    }
    err := fs.Write(path, text);
    ok := err.None?;
  }

  method EnsureNotDirectory(fs: Store, path: Path) returns (ok: bool)
    modifies fs
    ensures (ok, fs.disk) == IsNotDirectory(old(fs.disk), path)
  {
    var meta := fs.Stat(path);
    ok := meta.Ok? && !meta.value.isDirectory;
  }

  method RemoveFailureWasSideEffectFree(fs: Store, path: Path, expected: Option<string>) returns (ok: bool)
    modifies fs
    ensures (ok, fs.disk) == RemoveWasHarmless(old(fs.disk), path, expected)
  {
    if expected.None? {
      return false;
    }
    var content := fs.ReadText(path);
    ok := content.Ok? && content.value == expected.value;
  }

  /** What a hunk handler must have done, in terms of the step function. */
  predicate Did(fs: Store, delta: Recorder, err: Option<ApplyError>, earlier: seq<Change>, s: Step)
    reads fs, delta
  {
    && fs.disk == s.disk
    && delta.changes == earlier + s.changes
    && delta.exact == s.exact
    && err == s.error
  }

  method ApplyAdd(fs: Store, delta: Recorder, path: Path, contents: string) returns (err: Option<ApplyError>)
    modifies fs, delta
    ensures Did(fs, delta, err, old(delta.changes), AddStep(old(fs.disk), path, contents, old(delta.exact)))
  {
    var overwritten := ReadOptionalFileTextForDelta(fs, path, delta);
    var ok := WriteFileWithMissingParentRetry(fs, path, contents);
    if !ok {
      delta.exact := false;
      return Some(WriteFailed(path));
    }
    delta.changes := delta.changes + [Change(path, Added(contents, overwritten))];
    err := None;
  }

  method ApplyDelete(fs: Store, delta: Recorder, path: Path) returns (err: Option<ApplyError>)
    modifies fs, delta
    ensures Did(fs, delta, err, old(delta.changes), DeleteStep(old(fs.disk), path, old(delta.exact)))
  {
    NoteExistingPathDeltaSupport(fs, path, delta);
    var text := fs.ReadText(path);
    var content := if text.Ok? then Some(text.value) else None;
    if content.None? {
      delta.exact := false;
    }
    var notDir := EnsureNotDirectory(fs, path);
    if !notDir {
      return Some(DeleteFailed(path));
    }
    var status := fs.Delete(path);
    if status.Some? {
      if delta.exact {
        delta.exact := RemoveFailureWasSideEffectFree(fs, path, content);
      }
      return Some(DeleteFailed(path));
    }
    if content.Some? {
      delta.changes := delta.changes + [Change(path, Deleted(content.value))];
    }
    err := None;
  }

  method ApplyMove(fs: Store, delta: Recorder, path: Path, dest: Path, original: string, updated: string)
    returns (err: Option<ApplyError>)
    modifies fs, delta
    ensures Did(fs, delta, err, old(delta.changes), MoveStep(old(fs.disk), path, dest, original, updated, old(delta.exact)))
  {
    var overwritten := ReadOptionalFileTextForDelta(fs, dest, delta);
    var ok := WriteFileWithMissingParentRetry(fs, dest, updated);
    if !ok {
      delta.exact := false;
      return Some(WriteFailed(dest));
    }
    var destWriteIdx := |delta.changes|;
    delta.changes := delta.changes + [Change(dest, Added(updated, overwritten))];
    var notDir := EnsureNotDirectory(fs, path);
    if !notDir {
      return Some(RemoveOriginalFailed(path));
    }
    var status := fs.Delete(path);
    if status.Some? {
      if delta.exact {
        delta.exact := RemoveFailureWasSideEffectFree(fs, path, Some(original));
      }
      return Some(RemoveOriginalFailed(path));
    }
    delta.changes := delta.changes[destWriteIdx := Change(path, Updated(Some(dest), original, overwritten, updated))];
    err := None;
  }

  method ApplyUpdate(fs: Store, delta: Recorder, path: Path, dest: Option<Path>, chunks: seq<UpdateFileChunk>)
    returns (err: Option<ApplyError>)
    modifies fs, delta
    ensures Did(fs, delta, err, old(delta.changes), UpdateStep(old(fs.disk), path, dest, chunks, old(delta.exact)))
  {
    NoteExistingPathDeltaSupport(fs, path, delta);
    var text := fs.ReadText(path);
    if text.Err? {
      return Some(ReadFailed(path));
    }
    var applied := DeriveNewContents(text.value, chunks);
    if applied.Err? {
      return Some(ChunksFailed(applied.error));
    }
    if dest.Some? {
      err := ApplyMove(fs, delta, path, dest.value, text.value, applied.value);
      return;
    }
    var status := fs.Write(path, applied.value);
    if status.Some? {
      delta.exact := false;
      return Some(WriteFailed(path));
    }
    delta.changes := delta.changes + [Change(path, Updated(None, text.value, None, applied.value))];
    err := None;
  }

  method ApplyOne(fs: Store, delta: Recorder, hunk: Hunk, resolve: string -> Path) returns (err: Option<ApplyError>)
    modifies fs, delta
    ensures Did(fs, delta, err, old(delta.changes), ApplyHunk(old(fs.disk), hunk, old(delta.exact), resolve))
  {
    match hunk
    case AddFile(path, contents) =>
      err := ApplyAdd(fs, delta, resolve(path), contents);
    case DeleteFile(path) =>
      err := ApplyDelete(fs, delta, resolve(path));
    case UpdateFile(path, movePath, chunks) =>
      err := ApplyUpdate(fs, delta, resolve(path), Destination(movePath, resolve), chunks);
  }

  /**
   Applies the hunks in order, stopping at the first failure. Whatever happened,
   an exact delta undoes the committed changes, and redoes them unless the run
   stopped at a hunk that rewrites a file onto itself and the file was put back.
   After a success the files are those that the hunks leave. On an ordinary
   filesystem the outcome is fixed.
   */
  method ApplyHunksToFiles(hunks: seq<Hunk>, fs: Store, resolve: string -> Path)
    returns (affected: AffectedPaths, delta: Recorder, err: Option<ApplyError>)
    modifies fs
    ensures fresh(delta)
    ensures Run(fs.disk, Delta(delta.changes, delta.exact), err) == ApplyPatch(old(fs.disk), hunks, resolve)
    ensures err.None? ==> affected == AffectedPaths(AddedPaths(hunks), ModifiedPaths(hunks), DeletedPaths(hunks))
    ensures hunks == [] ==> err == Some(NoFilesModified) && delta.changes == [] && delta.exact && fs.disk == old(fs.disk)
    ensures delta.exact ==> Undoes(old(Files(fs.disk.tree)), delta.changes, Files(fs.disk.tree))
    ensures delta.exact ==>
              (Redoes(old(Files(fs.disk.tree)), delta.changes, Files(fs.disk.tree)) <==>
               !EndsPutBack(old(fs.disk), hunks, true, Run(fs.disk, Delta(delta.changes, delta.exact), err), resolve))
    ensures delta.exact && NeverRewrites(old(fs.disk.tree), hunks, resolve) ==>
              Redoes(old(Files(fs.disk.tree)), delta.changes, Files(fs.disk.tree))
    ensures delta.exact && err.None? ==>
              && AppliedAll(old(fs.disk.tree), hunks, resolve).Some?
              && Files(fs.disk.tree) == Files(AppliedAll(old(fs.disk.tree), hunks, resolve).value)
    ensures hunks != [] && OrdinaryFiles.Coherent(old(fs.disk.tree)) && old(fs.disk.answers) == [] ==>
              OrdinaryFiles.Outcome(fs.disk.tree, delta.changes, delta.exact, err) ==
              OrdinaryFiles.Outcomes(old(fs.disk.tree), hunks, [], true, resolve)
  {
    ghost var before := fs.disk;
    AffectedMeans(hunks);
    if hunks != [] && OrdinaryFiles.Coherent(before.tree) {
      OrdinaryFiles.OrdinaryRun(before.tree, hunks, resolve);
    }
    delta := new Recorder();
    affected, err := ApplyLoop(hunks, fs, delta, resolve);
    ExactDeltaUndoesAndRedoes(before, hunks, resolve);
    SuccessfulRunEffect(before, hunks, resolve);
    RedoIffNeverRewrites(before.tree, hunks, resolve);
    assert before == Disk(before.tree, before.answers);
  }

  method ApplyLoop(hunks: seq<Hunk>, fs: Store, delta: Recorder, resolve: string -> Path)
    returns (affected: AffectedPaths, err: Option<ApplyError>)
    requires delta.changes == [] && delta.exact
    modifies fs, delta
    ensures Run(fs.disk, Delta(delta.changes, delta.exact), err) == ApplyPatch(old(fs.disk), hunks, resolve)
    ensures err.None? ==> affected == Affected(hunks)
  {
    affected := AffectedPaths([], [], []);
    if |hunks| == 0 {
      return affected, Some(NoFilesModified);
    }
    ghost var run := ApplyAll(Applying(resolve), fs.disk, hunks, Delta([], true));
    assert hunks[0..] == hunks;
    for i := 0 to |hunks|
      invariant affected == Affected(hunks[..i])
      invariant ApplyAll(Applying(resolve), fs.disk, hunks[i..], Delta(delta.changes, delta.exact)) == run
    {
      ApplyAllStep(fs.disk, hunks, i, Delta(delta.changes, delta.exact), resolve);
      err := ApplyOne(fs, delta, hunks[i], resolve);
      if err.Some? {
        return;
      }
      assert hunks[..i + 1][..i] == hunks[..i];
      affected := Note(affected, hunks[i]);
    }
    assert hunks[|hunks|..] == [] && hunks[..|hunks|] == hunks;
    err := None;
  }
}
