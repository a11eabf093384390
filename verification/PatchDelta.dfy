/**
 Applying parsed hunks to a filesystem that may fail, with a record of what was
 committed (internal/applypatch/apply.go, internal/applypatch/apply_types.go).

 The `exact` flag claims that the recorded changes are a complete account. What
 that must mean: undoing them, last first, gives back the initial files, and
 redoing them in order gives the final files.
 */
module PatchDelta {

  import opened PatchTypes
  import opened FileSystem
  import opened ChunkPlacement
  import opened Replacements

  // ----- The record

  datatype FileChange =
    | Added(content: string, overwritten: Option<string>)
    | Deleted(content: string)
    | Updated(movePath: Option<Path>, oldContent: string, overwrittenMove: Option<string>, newContent: string)

  datatype Change = Change(path: Path, change: FileChange)

  datatype Delta = Delta(changes: seq<Change>, exact: bool)

  /** Regular files by path. */
  type FileMap = map<Path, Content>

  /** Puts a text back where it was, or removes what was not there. */
  function Restore(files: FileMap, path: Path, text: Option<string>): FileMap {
    match text
    case Some(t) => files[path := Text(t)]
    case None => files - {path}
  }

  function Redo(files: FileMap, c: Change): FileMap {
    match c.change
    case Added(content, _) => files[c.path := Text(content)]
    case Deleted(_) => files - {c.path}
    case Updated(None, _, _, newContent) => files[c.path := Text(newContent)]
    case Updated(Some(dest), _, _, newContent) => files[dest := Text(newContent)] - {c.path}
  }

  function Undo(files: FileMap, c: Change): FileMap {
    match c.change
    case Added(_, overwritten) => Restore(files, c.path, overwritten)
    case Deleted(content) => files[c.path := Text(content)]
    case Updated(None, oldContent, _, _) => files[c.path := Text(oldContent)]
    case Updated(Some(dest), oldContent, overwrittenMove, _) =>
      Restore(files, dest, overwrittenMove)[c.path := Text(oldContent)]
  }

  function RedoAll(files: FileMap, changes: seq<Change>): FileMap {
    if changes == [] then files
    else Redo(RedoAll(files, changes[..|changes| - 1]), changes[|changes| - 1])
  }

  function UndoAll(files: FileMap, changes: seq<Change>): FileMap
    decreases |changes|
  {
    if changes == [] then files
    else UndoAll(Undo(files, changes[|changes| - 1]), changes[..|changes| - 1])
  }

  /** The changes lead back from `after` to `before`. */
  predicate Undoes(before: FileMap, changes: seq<Change>, after: FileMap) {
    UndoAll(after, changes) == before
  }

  /** The changes lead from `before` to `after`. */
  predicate Redoes(before: FileMap, changes: seq<Change>, after: FileMap) {
    RedoAll(before, changes) == after
  }

  lemma {:induction false} UndoesConcat(f: FileMap, cs: seq<Change>, g: FileMap, ds: seq<Change>, h: FileMap)
    requires Undoes(f, cs, g) && Undoes(g, ds, h)
    ensures Undoes(f, cs + ds, h)
    decreases |ds|
  {
    if ds == [] {
      assert cs + ds == cs;
    } else {
      var n := |ds| - 1;
      assert (cs + ds)[..|cs + ds| - 1] == cs + ds[..n];
      UndoesConcat(f, cs, g, ds[..n], Undo(h, ds[n]));
    }
  }

  lemma {:induction false} RedoesConcat(f: FileMap, cs: seq<Change>, g: FileMap, ds: seq<Change>, h: FileMap)
    requires Redoes(f, cs, g) && Redoes(g, ds, h)
    ensures Redoes(f, cs + ds, h)
    decreases |ds|
  {
    if ds == [] {
      assert cs + ds == cs;
    } else {
      var n := |ds| - 1;
      assert (cs + ds)[..|cs + ds| - 1] == cs + ds[..n];
      RedoesConcat(f, cs, g, ds[..n], RedoAll(g, ds[..n]));
    }
  }

  lemma OneChange(f: FileMap, c: Change, g: FileMap)
    ensures Undoes(f, [c], g) <==> Undo(g, c) == f
    ensures Redoes(f, [c], g) <==> Redo(f, c) == g
  {
    assert [c][..0] == [];
    assert RedoAll(f, [c]) == Redo(RedoAll(f, []), c);
    assert UndoAll(g, [c]) == UndoAll(Undo(g, c), []);
  }

  // ----- The helpers of the apply loop

  /** An existing path that is not a plain file, or cannot be examined, makes the delta inexact. */
  function NoteExisting(disk: Disk, path: Path, exact: bool): (r: (bool, Disk))
    ensures r.1.tree == disk.tree
    ensures r.0 ==> exact && Plain(disk.tree, path)
  {
    var (meta, after) := Metadata(disk, path);
    match meta
    case Ok(m) => (exact && m.isFile && !m.isSymlink, after)
    case Err(NotFound) => (exact, after)
    case Err(OtherError) => (false, after)
  }

  /** What a write to the path will overwrite, if anything. */
  function ReadOptional(disk: Disk, path: Path, exact: bool): (r: (Option<string>, bool, Disk))
    ensures r.2.tree == disk.tree
    ensures r.1 ==> exact && Plain(disk.tree, path)
    ensures r.1 && r.0.Some? ==> path in disk.tree && disk.tree[path] == File(Text(r.0.value))
    ensures r.1 && r.0.None? ==> path !in disk.tree
  {
    var (noted, d) := NoteExisting(disk, path, exact);
    var (text, after) := ReadFileText(d, path);
    match text
    case Ok(t) => (Some(t), noted, after)
    case Err(NotFound) => (None, noted, after)
    case Err(OtherError) => (None, false, after)
  }

  /** Writes; if the parent is missing, creates it and tries once more. */
  function WriteWithRetry(disk: Disk, path: Path, text: string): (r: (bool, Disk))
    ensures r.0 && Plain(disk.tree, path) ==> Files(r.1.tree) == Files(disk.tree)[path := Text(text)] && Plain(r.1.tree, path)
  {
    var (status, d) := WriteFile(disk, path, text);
    if status.None? then
      assert Plain(disk.tree, path) ==> Files(d.tree) == Files(disk.tree)[path := Text(text)];
      (true, d)
    else if status.value != NotFound then (false, d)
    else
      var (made, d') := match ParentDir(path)
                        case None => (None, d)
                        case Some(dir) => CreateDirAll(d, dir);
      if made.Some? then (false, d')
      else
        var (again, after) := WriteFile(d', path, text);
        RetryWrites(disk.tree, path, text, status, d.tree, d'.tree, again, after.tree);
        (again.None?, after)
  }

  /** The retry overwrites whatever the first attempt left, and the new directories are not files. */
  lemma RetryWrites(t0: Tree, path: Path, text: string, first: Option<ErrorKind>, t1: Tree, t2: Tree, second: Option<ErrorKind>, t3: Tree)
    requires WriteAllowed(t0, path, text, first, t1)
    requires t2 == t1 || (path != [] && CreateAllowed(t1, path[..|path| - 1], t2))
    requires WriteAllowed(t2, path, text, second, t3)
    ensures second.None? && Plain(t0, path) ==> Files(t3) == Files(t0)[path := Text(text)] && Plain(t3, path)
  {
    if second.None? && Plain(t0, path) {
      assert Plain(t2, path);
      assert forall p :: p != path ==> (p in Files(t0) <==> p in Files(t3));
      assert forall p :: p != path && p in Files(t0) ==> Files(t0)[p] == Files(t3)[p];
    }
  }

  /** Whether the path is known not to be a directory. */
  function IsNotDirectory(disk: Disk, path: Path): (r: (bool, Disk))
    ensures r.1.tree == disk.tree
  {
    var (meta, after) := Metadata(disk, path);
    (meta.Ok? && !meta.value.isDirectory, after)
  }

  /** A failed removal did no harm if the target still holds what was expected. */
  function RemoveWasHarmless(disk: Disk, path: Path, expected: Option<string>): (r: (bool, Disk))
    ensures r.1.tree == disk.tree
    ensures r.0 && Plain(disk.tree, path) ==> expected.Some? && path in disk.tree && disk.tree[path] == File(Text(expected.value))
  {
    if expected.None? then (false, disk)
    else
      var (text, after) := ReadFileText(disk, path);
      (text == Ok(expected.value), after)
  }

  // ----- One hunk

  datatype ApplyError =
    | NoFilesModified
    | WriteFailed(path: Path)
    | DeleteFailed(path: Path)
    | ReadFailed(path: Path)
    | ChunksFailed(error: ComputeError)
    | RemoveOriginalFailed(path: Path)

  /** What one hunk did: its recorded changes, the flag after it, and the failure that stopped it. */
  datatype Step = Step(disk: Disk, changes: seq<Change>, exact: bool, error: Option<ApplyError>)

  function AddStep(disk: Disk, path: Path, contents: string, exact: bool): Step {
    var (overwritten, noted, d) := ReadOptional(disk, path, exact);
    var (ok, after) := WriteWithRetry(d, path, contents);
    if !ok then Step(after, [], false, Some(WriteFailed(path)))
    else Step(after, [Change(path, Added(contents, overwritten))], noted, None)
  }

  /** A write that fails for another reason than a missing directory is not tried again, and nothing else is. */
  lemma OtherErrorsAreFinal(disk: Disk, path: Path, contents: string, exact: bool)
    ensures var (overwritten, noted, d) := ReadOptional(disk, path, exact);
            var (status, after) := WriteFile(d, path, contents);
            status == Some(OtherError) ==> AddStep(disk, path, contents, exact) == Step(after, [], false, Some(WriteFailed(path)))
  {
  }

  /** The removal at the end of a delete or a move: whether it succeeded, and the flag if it did not. */
  function RemoveStep(disk: Disk, path: Path, expected: Option<string>, exact: bool): (bool, bool, Disk) {
    var (notDir, d) := IsNotDirectory(disk, path);
    if !notDir then (false, exact, d)
    else
      var (status, after) := Remove(d, path);
      if status.None? then (true, exact, after)
      else if !exact then (false, false, after)
      else
        var (harmless, last) := RemoveWasHarmless(after, path, expected);
        (false, harmless, last)
  }

  function DeleteStep(disk: Disk, path: Path, exact: bool): Step {
    var (noted, d) := NoteExisting(disk, path, exact);
    var (text, d1) := ReadFileText(d, path);
    var content := if text.Ok? then Some(text.value) else None;
    var (removed, flag, after) := RemoveStep(d1, path, content, noted && content.Some?);
    if !removed then Step(after, [], flag, Some(DeleteFailed(path)))
    else Step(after, if content.Some? then [Change(path, Deleted(content.value))] else [], flag, None)
  }

  function UpdateStep(disk: Disk, path: Path, dest: Option<Path>, chunks: seq<UpdateFileChunk>, exact: bool): Step {
    var (noted, d) := NoteExisting(disk, path, exact);
    var (text, d1) := ReadFileText(d, path);
    if text.Err? then Step(d1, [], noted, Some(ReadFailed(path)))
    else
      var derived := DerivedContents(text.value, chunks);
      if derived.Err? then Step(d1, [], noted, Some(ChunksFailed(derived.error)))
      else if dest.None? then OverwriteStep(d1, path, text.value, derived.value, noted)
      else MoveStep(d1, path, dest.value, text.value, derived.value, noted)
  }

  function OverwriteStep(disk: Disk, path: Path, original: string, updated: string, exact: bool): Step {
    var (status, after) := WriteFile(disk, path, updated);
    if status.Some? then Step(after, [], false, Some(WriteFailed(path)))
    else Step(after, [Change(path, Updated(None, original, None, updated))], exact, None)
  }

  /** Writes the destination, then removes the source; the first change is recorded before the second is tried. */
  function MoveStep(disk: Disk, path: Path, dest: Path, original: string, updated: string, exact: bool): Step {
    var (overwritten, noted, d) := ReadOptional(disk, dest, exact);
    var (ok, d1) := WriteWithRetry(d, dest, updated);
    if !ok then Step(d1, [], false, Some(WriteFailed(dest)))
    else
      var (removed, flag, after) := RemoveStep(d1, path, Some(original), noted);
      if !removed then Step(after, [Change(dest, Added(updated, overwritten))], flag, Some(RemoveOriginalFailed(path)))
      else Step(after, [Change(path, Updated(Some(dest), original, overwritten, updated))], flag, None)
  }

  function Destination(movePath: Option<string>, resolve: string -> Path): Option<Path> {
    match movePath
    case None => None
    case Some(p) => Some(resolve(p))
  }

  function ApplyHunk(disk: Disk, hunk: Hunk, exact: bool, resolve: string -> Path): Step {
    match hunk
    case AddFile(path, contents) => AddStep(disk, resolve(path), contents, exact)
    case DeleteFile(path) => DeleteStep(disk, resolve(path), exact)
    case UpdateFile(path, movePath, chunks) =>
      UpdateStep(disk, resolve(path), Destination(movePath, resolve), chunks, exact)
  }

  // ----- One hunk is accounted for

  /** The step's record undoes it. */
  predicate StepUndoes(before: Tree, s: Step) {
    s.exact ==> Undoes(Files(before), s.changes, Files(s.disk.tree))
  }

  /** The step's record redoes it. */
  predicate StepRedoes(before: Tree, s: Step) {
    s.exact ==> Redoes(Files(before), s.changes, Files(s.disk.tree))
  }

  lemma NoChange(before: Tree, s: Step)
    requires s.changes == [] && Files(s.disk.tree) == Files(before)
    ensures StepUndoes(before, s) && StepRedoes(before, s)
  {
  }

  /** Overwriting is undone by what was there. */
  lemma OverwriteUndone(files: FileMap, path: Path, text: string, overwritten: Option<string>)
    requires overwritten.Some? ==> path in files && files[path] == Text(overwritten.value)
    requires overwritten.None? ==> path !in files
    ensures Restore(files[path := Text(text)], path, overwritten) == files
  {
  }

  lemma AddIsExact(disk: Disk, path: Path, contents: string, exact: bool)
    ensures var s := AddStep(disk, path, contents, exact);
            (s.exact ==> exact) && StepUndoes(disk.tree, s) && StepRedoes(disk.tree, s)
  {
    var s := AddStep(disk, path, contents, exact);
    var (overwritten, noted, d) := ReadOptional(disk, path, exact);
    if s.exact {
      OverwriteUndone(Files(disk.tree), path, contents, overwritten);
      OneChange(Files(disk.tree), s.changes[0], Files(s.disk.tree));
    }
  }

  /** A removal from a plain path drops that file, or fails; a failure that keeps the flag left the expected text. */
  lemma RemoveStepEffect(disk: Disk, path: Path, expected: Option<string>, exact: bool)
    requires Plain(disk.tree, path)
    ensures var (removed, flag, after) := RemoveStep(disk, path, expected, exact);
            && (flag ==> exact)
            && (removed ==> Files(after.tree) == Files(disk.tree) - {path})
            && (!removed && flag ==> after.tree == disk.tree || (expected.Some? && Files(after.tree) == Files(disk.tree)[path := Text(expected.value)]))
  {
    var (notDir, d) := IsNotDirectory(disk, path);
    var (status, after) := Remove(d, path);
    if notDir && status.None? {
      RemoveDropsFile(disk.tree, path, after.tree);
    } else if notDir && exact {
      var (harmless, last) := RemoveWasHarmless(after, path, expected);
      if harmless {
        assert SameElsewhere(disk.tree, after.tree, path);
        assert Files(after.tree) == Files(disk.tree)[path := Text(expected.value)];
      }
    }
  }

  /** The two outcomes of an exact delete: the file is gone, or as it was. */
  lemma DeleteAccounted(f: FileMap, path: Path, text: string, g: FileMap)
    requires path in f && f[path] == Text(text)
    ensures g == f - {path} ==> Undoes(f, [Change(path, Deleted(text))], g) && Redoes(f, [Change(path, Deleted(text))], g)
    ensures g == f[path := Text(text)] ==> g == f
  {
    OneChange(f, Change(path, Deleted(text)), g);
  }

  lemma DeleteIsExact(disk: Disk, path: Path, exact: bool)
    ensures var s := DeleteStep(disk, path, exact);
            (s.exact ==> exact) && StepUndoes(disk.tree, s) && StepRedoes(disk.tree, s)
  {
    var s := DeleteStep(disk, path, exact);
    var (noted, d) := NoteExisting(disk, path, exact);
    var (text, d1) := ReadFileText(d, path);
    var content := if text.Ok? then Some(text.value) else None;
    RemoveFlag(d1, path, content, noted && content.Some?);
    if s.exact {
      RemoveStepEffect(d1, path, content, noted && content.Some?);
      DeleteAccounted(Files(disk.tree), path, content.value, Files(s.disk.tree));
    }
  }

  lemma RemoveFlag(disk: Disk, path: Path, expected: Option<string>, exact: bool)
    ensures RemoveStep(disk, path, expected, exact).1 ==> exact
  {
  }

  lemma OverwriteIsExact(disk: Disk, path: Path, original: string, updated: string, exact: bool)
    requires exact ==> path in disk.tree && disk.tree[path] == File(Text(original))
    ensures var s := OverwriteStep(disk, path, original, updated, exact);
            (s.exact ==> exact) && StepUndoes(disk.tree, s) && StepRedoes(disk.tree, s)
  {
    var s := OverwriteStep(disk, path, original, updated, exact);
    if s.exact {
      WriteSetsFile(disk.tree, path, updated, s.disk.tree);
      assert Files(disk.tree)[path] == Text(original);
      OneChange(Files(disk.tree), s.changes[0], Files(s.disk.tree));
    }
  }

  /** What an exact step has learnt about the two files of a move. */
  predicate MoveKnown(f: FileMap, path: Path, dest: Path, original: string, overwritten: Option<string>) {
    && path in f && f[path] == Text(original)
    && (overwritten.Some? ==> dest in f && f[dest] == Text(overwritten.value))
    && (overwritten.None? ==> dest !in f)
  }

  /** The record of a completed move. */
  lemma CompletedMove(f: FileMap, path: Path, dest: Path, original: string, updated: string, overwritten: Option<string>)
    requires MoveKnown(f, path, dest, original, overwritten)
    ensures var c := Change(path, Updated(Some(dest), original, overwritten, updated));
            var g := f[dest := Text(updated)] - {path};
            Undo(g, c) == f && Redo(f, c) == g
  {
  }

  /** The record of a move that wrote its destination and then failed, leaving the source with its original text. */
  lemma PartialMove(f: FileMap, path: Path, dest: Path, original: string, updated: string, overwritten: Option<string>, g: FileMap)
    requires MoveKnown(f, path, dest, original, overwritten)
    requires g == f[dest := Text(updated)] || g == f[dest := Text(updated)][path := Text(original)]
    ensures var c := Change(dest, Added(updated, overwritten));
            Undo(g, c) == f && (dest != path || original == updated ==> Redo(f, c) == g)
  {
  }

  /** Between the two halves of a move. */
  lemma MoveHalfway(disk: Disk, path: Path, dest: Path, original: string, updated: string, exact: bool)
    requires exact ==> path in disk.tree && disk.tree[path] == File(Text(original))
    ensures var (overwritten, noted, d) := ReadOptional(disk, dest, exact);
            var (ok, d1) := WriteWithRetry(d, dest, updated);
            && (noted ==> exact && MoveKnown(Files(disk.tree), path, dest, original, overwritten))
            && (noted && ok ==> Files(d1.tree) == Files(disk.tree)[dest := Text(updated)] && Plain(d1.tree, path))
  {
    var (overwritten, noted, d) := ReadOptional(disk, dest, exact);
    var (ok, d1) := WriteWithRetry(d, dest, updated);
    if noted && ok && path != dest {
      assert path in Files(d1.tree);
    }
  }

  /** A move is always undone by its record; it is redone too, unless it fails and source and destination are one changed file. */
  lemma MoveIsExact(disk: Disk, path: Path, dest: Path, original: string, updated: string, exact: bool)
    requires exact ==> path in disk.tree && disk.tree[path] == File(Text(original))
    ensures var s := MoveStep(disk, path, dest, original, updated, exact);
            && (s.exact ==> exact) && StepUndoes(disk.tree, s)
            && (s.error.None? || dest != path || original == updated ==> StepRedoes(disk.tree, s))
  {
    var s := MoveStep(disk, path, dest, original, updated, exact);
    var (overwritten, noted, d) := ReadOptional(disk, dest, exact);
    var (ok, d1) := WriteWithRetry(d, dest, updated);
    MoveHalfway(disk, path, dest, original, updated, exact);
    if s.exact {
      var f := Files(disk.tree);
      RemoveFlag(d1, path, Some(original), noted);
      RemoveStepEffect(d1, path, Some(original), noted);
      OneChange(f, s.changes[0], Files(s.disk.tree));
      if s.error.None? {
        CompletedMove(f, path, dest, original, updated, overwritten);
      } else {
        PartialMove(f, path, dest, original, updated, overwritten, Files(s.disk.tree));
      }
    }
  }

  /** The hunk asks to move a file onto itself. */
  predicate MovesOntoItself(hunk: Hunk, resolve: string -> Path) {
    hunk.UpdateFile? && Destination(hunk.movePath, resolve) == Some(resolve(hunk.path))
  }

  /** The hunk moves a file onto itself and changes its text on the way. */
  predicate RewritesOntoItself(hunk: Hunk, tree: Tree, resolve: string -> Path) {
    && MovesOntoItself(hunk, resolve)
    && var path := resolve(hunk.path);
    && path in tree && tree[path].File? && tree[path].content.Text?
    && var derived := DerivedContents(tree[path].content.text, hunk.chunks);
    && derived.Ok? && derived.value != tree[path].content.text
  }

  lemma HunkIsExact(disk: Disk, hunk: Hunk, exact: bool, resolve: string -> Path)
    ensures var s := ApplyHunk(disk, hunk, exact, resolve);
            && (s.exact ==> exact)
            && StepUndoes(disk.tree, s)
            && (s.error.None? || !RewritesOntoItself(hunk, disk.tree, resolve) ==> StepRedoes(disk.tree, s))
  {
    match hunk
    case AddFile(path, contents) =>
      AddIsExact(disk, resolve(path), contents, exact);
    case DeleteFile(path) =>
      DeleteIsExact(disk, resolve(path), exact);
    case UpdateFile(p, movePath, chunks) =>
      var path := resolve(p);
      var dest := Destination(movePath, resolve);
      var s := UpdateStep(disk, path, dest, chunks, exact);
      var (noted, d) := NoteExisting(disk, path, exact);
      var (text, d1) := ReadFileText(d, path);
      if text.Err? || DerivedContents(text.value, chunks).Err? {
        NoChange(disk.tree, s);
      } else if dest.None? {
        OverwriteIsExact(d1, path, text.value, DerivedContents(text.value, chunks).value, noted);
      } else {
        MoveIsExact(d1, path, dest.value, text.value, DerivedContents(text.value, chunks).value, noted);
      }
  }

  // ----- Whole runs

  /** The effect of a hunk on a disk, given the flag so far. */
  type Applier = (Disk, Hunk, bool) -> Step

  function Applying(resolve: string -> Path): Applier {
    (disk: Disk, hunk: Hunk, exact: bool) => ApplyHunk(disk, hunk, exact, resolve)
  }

  datatype Run = Run(disk: Disk, delta: Delta, error: Option<ApplyError>)

  /** The hunks in order, up to the first failure. */
  function ApplyAll(apply: Applier, disk: Disk, hunks: seq<Hunk>, delta: Delta): Run
    decreases |hunks|
  {
    if hunks == [] then Run(disk, delta, None)
    else
      var s := apply(disk, hunks[0], delta.exact);
      var delta' := Delta(delta.changes + s.changes, s.exact);
      if s.error.Some? then Run(s.disk, delta', s.error)
      else ApplyAll(apply, s.disk, hunks[1..], delta')
  }

  lemma {:induction false} ApplyAllStep(disk: Disk, hunks: seq<Hunk>, i: nat, delta: Delta, resolve: string -> Path)
    requires i < |hunks|
    ensures var s := ApplyHunk(disk, hunks[i], delta.exact, resolve);
            var delta' := Delta(delta.changes + s.changes, s.exact);
            ApplyAll(Applying(resolve), disk, hunks[i..], delta) ==
            if s.error.Some? then Run(s.disk, delta', s.error) else ApplyAll(Applying(resolve), s.disk, hunks[i + 1..], delta')
  {
    assert hunks[i..][1..] == hunks[i + 1..];
  }

  function ApplyPatch(disk: Disk, hunks: seq<Hunk>, resolve: string -> Path): Run {
    if hunks == [] then Run(disk, Delta([], true), Some(NoFilesModified))
    else ApplyAll(Applying(resolve), disk, hunks, Delta([], true))
  }

  /** The hunk at which a run stops, and the disk that it found. */
  datatype Stop = Stop(hunk: Hunk, tree: Tree)

  function StopOf(apply: Applier, disk: Disk, hunks: seq<Hunk>, exact: bool): Option<Stop>
    decreases |hunks|
  {
    if hunks == [] then None
    else
      var s := apply(disk, hunks[0], exact);
      if s.error.Some? then Some(Stop(hunks[0], disk.tree)) else StopOf(apply, s.disk, hunks[1..], s.exact)
  }

  /** The run stops at a hunk that, on the files it finds, rewrites a file onto itself. */
  predicate StopsRewriting(disk: Disk, hunks: seq<Hunk>, exact: bool, resolve: string -> Path) {
    match StopOf(Applying(resolve), disk, hunks, exact)
    case Some(stop) => RewritesOntoItself(stop.hunk, stop.tree, resolve)
    case None => false
  }

  /** The removal of the original failed, and the file is as the hunk found it. */
  predicate PutsBack(hunk: Hunk, before: Tree, error: Option<ApplyError>, after: Tree, resolve: string -> Path) {
    var path := resolve(hunk.path);
    error == Some(RemoveOriginalFailed(path)) && path in before && path in after && after[path] == before[path]
  }

  /** The run stops at such a hunk, and in the end the file is as the hunk found it. */
  predicate EndsPutBack(disk: Disk, hunks: seq<Hunk>, exact: bool, run: Run, resolve: string -> Path) {
    && StopsRewriting(disk, hunks, exact, resolve)
    && var stop := StopOf(Applying(resolve), disk, hunks, exact).value;
    && PutsBack(stop.hunk, stop.tree, run.error, run.disk.tree, resolve)
  }

  lemma RewriteRedoIff(disk: Disk, hunk: Hunk, exact: bool, resolve: string -> Path)
    requires RewritesOntoItself(hunk, disk.tree, resolve)
    ensures var s := ApplyHunk(disk, hunk, exact, resolve);
            s.exact && s.error.Some? ==>
              (Redoes(Files(disk.tree), s.changes, Files(s.disk.tree)) <==> !PutsBack(hunk, disk.tree, s.error, s.disk.tree, resolve))
  {
    var path := resolve(hunk.path);
    var (noted, d) := NoteExisting(disk, path, exact);
    var (text, d1) := ReadFileText(d, path);
    if text.Ok? && DerivedContents(text.value, hunk.chunks).Ok? {
      MoveRedoIff(d1, path, text.value, DerivedContents(text.value, hunk.chunks).value, noted);
    }
  }

  /** A hunk's exact record redoes it, unless the hunk failed and put a rewritten file back. */
  lemma HunkRedoIff(disk: Disk, hunk: Hunk, exact: bool, resolve: string -> Path)
    ensures var s := ApplyHunk(disk, hunk, exact, resolve);
            s.exact ==>
              (Redoes(Files(disk.tree), s.changes, Files(s.disk.tree)) <==>
               !(RewritesOntoItself(hunk, disk.tree, resolve) && PutsBack(hunk, disk.tree, s.error, s.disk.tree, resolve)))
  {
    HunkIsExact(disk, hunk, exact, resolve);
    if RewritesOntoItself(hunk, disk.tree, resolve) {
      RewriteRedoIff(disk, hunk, exact, resolve);
    }
  }

  /** An exact record redoes a run of two parts exactly when it redoes the second, having redone the first. */
  lemma RedoesSecond(f: FileMap, cs: seq<Change>, g: FileMap, ds: seq<Change>, h: FileMap)
    requires Redoes(f, cs, g)
    ensures Redoes(f, cs + ds, h) <==> Redoes(g, ds, h)
  {
    RedoesConcat(f, cs, g, ds, RedoAll(g, ds));
  }

  lemma MoveRedoIff(disk: Disk, path: Path, original: string, updated: string, exact: bool)
    requires exact ==> path in disk.tree && disk.tree[path] == File(Text(original))
    requires exact ==> original != updated
    ensures var s := MoveStep(disk, path, path, original, updated, exact);
            s.exact && s.error.Some? ==>
              && s.error == Some(RemoveOriginalFailed(path)) && path in disk.tree
              && (Redoes(Files(disk.tree), s.changes, Files(s.disk.tree)) <==>
                  !(path in s.disk.tree && s.disk.tree[path] == disk.tree[path]))
  {
    var s := MoveStep(disk, path, path, original, updated, exact);
    var (overwritten, noted, d) := ReadOptional(disk, path, exact);
    var (ok, d1) := WriteWithRetry(d, path, updated);
    MoveHalfway(disk, path, path, original, updated, exact);
    if s.exact && s.error.Some? {
      var f, g := Files(disk.tree), Files(s.disk.tree);
      RemoveFlag(d1, path, Some(original), noted);
      RemoveStepEffect(d1, path, Some(original), noted);
      OneChange(f, s.changes[0], g);
      assert Redo(f, s.changes[0]) == f[path := Text(updated)];
      assert g == f[path := Text(updated)] || g == f[path := Text(updated)][path := Text(original)];
      assert g[path] == if path in s.disk.tree && s.disk.tree[path].File? then s.disk.tree[path].content else Text(updated);
    }
  }

  /** The record of an exact run leads back, and it leads forward unless the run was put back. */
  predicate Accounted(files: FileMap, changes: seq<Change>, after: Tree, putBack: bool) {
    && Undoes(files, changes, Files(after))
    && (Redoes(files, changes, Files(after)) <==> !putBack)
  }

  /** A first part that is accounted for, and one more hunk. */
  lemma AccountedThen(files: FileMap, changes: seq<Change>, disk: Disk, hunk: Hunk, exact: bool, resolve: string -> Path)
    requires exact ==> Accounted(files, changes, disk.tree, false)
    ensures var s := ApplyHunk(disk, hunk, exact, resolve);
            s.exact ==> exact && Accounted(files, changes + s.changes, s.disk.tree,
                                           RewritesOntoItself(hunk, disk.tree, resolve) && PutsBack(hunk, disk.tree, s.error, s.disk.tree, resolve))
  {
    var s := ApplyHunk(disk, hunk, exact, resolve);
    HunkIsExact(disk, hunk, exact, resolve);
    HunkRedoIff(disk, hunk, exact, resolve);
    if s.exact {
      UndoesConcat(files, changes, Files(disk.tree), s.changes, Files(s.disk.tree));
      RedoesSecond(files, changes, Files(disk.tree), s.changes, Files(s.disk.tree));
    }
  }

  /** The two ways in which a run of hunks goes on after the first. */
  lemma FirstStep(apply: Applier, disk: Disk, hunks: seq<Hunk>, delta: Delta) returns (s: Step)
    requires hunks != []
    ensures s == apply(disk, hunks[0], delta.exact)
    ensures var delta' := Delta(delta.changes + s.changes, s.exact);
            if s.error.Some? then
              && ApplyAll(apply, disk, hunks, delta) == Run(s.disk, delta', s.error)
              && StopOf(apply, disk, hunks, delta.exact) == Some(Stop(hunks[0], disk.tree))
            else
              && ApplyAll(apply, disk, hunks, delta) == ApplyAll(apply, s.disk, hunks[1..], delta')
              && StopOf(apply, disk, hunks, delta.exact) == StopOf(apply, s.disk, hunks[1..], s.exact)
  {
    s := apply(disk, hunks[0], delta.exact);
  }

  lemma {:induction false} ApplyAllIsExact(files: FileMap, disk: Disk, hunks: seq<Hunk>, delta: Delta, resolve: string -> Path)
    requires delta.exact ==> Accounted(files, delta.changes, disk.tree, false)
    ensures var run := ApplyAll(Applying(resolve), disk, hunks, delta);
            run.delta.exact ==>
              delta.exact && Accounted(files, run.delta.changes, run.disk.tree, EndsPutBack(disk, hunks, delta.exact, run, resolve))
    decreases |hunks|
  {
    if hunks != [] {
      var s := FirstStep(Applying(resolve), disk, hunks, delta);
      AccountedThen(files, delta.changes, disk, hunks[0], delta.exact, resolve);
      if s.error.None? {
        ApplyAllIsExact(files, s.disk, hunks[1..], Delta(delta.changes + s.changes, s.exact), resolve);
      }
    }
  }

  /**
   For every hunk list and every filesystem that keeps the contract, on success
   and on every failure: an exact delta leads back to the initial files, and it
   leads forward to the final ones if and only if the run did not stop at a hunk
   that rewrites a file onto itself, with the file put back.
   */
  lemma ExactDeltaUndoesAndRedoes(disk: Disk, hunks: seq<Hunk>, resolve: string -> Path)
    ensures var run := ApplyPatch(disk, hunks, resolve);
            run.delta.exact ==>
              && Undoes(Files(disk.tree), run.delta.changes, Files(run.disk.tree))
              && (Redoes(Files(disk.tree), run.delta.changes, Files(run.disk.tree)) <==> !EndsPutBack(disk, hunks, true, run, resolve))
              && (run.error.None? ==> !EndsPutBack(disk, hunks, true, run, resolve))
  {
    if hunks != [] {
      ApplyAllIsExact(Files(disk.tree), disk, hunks, Delta([], true), resolve);
    }
  }
}
