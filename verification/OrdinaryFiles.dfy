/**
 What a patch does to an ordinary filesystem (internal/applypatch/apply.go): one
 of files and directories, where a write into a missing directory reports that it
 was not found and changes nothing, directories can be created where no file is
 in the way, and nothing else fails without a reason. There the outcome of every
 hunk is fixed: the files, the record, the flag and the error.
 */
module OrdinaryFiles {

  import opened PatchTypes
  import opened FileSystem
  import opened ChunkPlacement
  import opened Replacements
  import opened PatchDelta

  // ----- The outcome of a hunk

  /** Only files and directories, and every directory on the way to one of them. */
  predicate Coherent(tree: Tree) {
    forall p :: p in tree ==>
      (tree[p].File? || tree[p].Directory?) && forall i :: 0 <= i < |p| ==> IsDirectory(tree, p[..i])
  }

  function TextOf(tree: Tree, path: Path): Option<string> {
    if path !in tree then None
    else
      match tree[path]
      case File(Text(text)) => Some(text)
      case _ => None
  }

  /** Nothing but directories is on the way to the path. */
  predicate Open(tree: Tree, path: Path) {
    forall i :: 0 <= i < |path| ==> path[..i] in tree ==> IsDirectory(tree, path[..i])
  }

  /** A file can be put here. */
  predicate Reachable(tree: Tree, path: Path) {
    !IsDirectory(tree, path) && Open(tree, path)
  }

  /** The tree with a file at the path, and the directories it needs. */
  function WithFile(tree: Tree, path: Path, text: string): Tree {
    map p | p in tree.Keys + Prefixes(path) ::
      if p == path then File(Text(text)) else if p in tree then tree[p] else Directory
  }

  /** What is there, if anything, is a text. */
  predicate FreeOrText(tree: Tree, path: Path) {
    path in tree ==> TextOf(tree, path).Some?
  }

  datatype Outcome = Outcome(tree: Tree, changes: seq<Change>, exact: bool, error: Option<ApplyError>)

  function Adding(tree: Tree, path: Path, contents: string, exact: bool): Outcome {
    if !Reachable(tree, path) then Outcome(tree, [], false, Some(WriteFailed(path)))
    else
      Outcome(WithFile(tree, path, contents), [Change(path, Added(contents, TextOf(tree, path)))],
              exact && FreeOrText(tree, path), None)
  }

  function Deleting(tree: Tree, path: Path, exact: bool): Outcome {
    if path !in tree || IsDirectory(tree, path) then Outcome(tree, [], false, Some(DeleteFailed(path)))
    else
      match TextOf(tree, path)
      case Some(text) => Outcome(tree - {path}, [Change(path, Deleted(text))], exact, None)
      case None => Outcome(tree - {path}, [], false, None)
  }

  function Updating(tree: Tree, path: Path, dest: Option<Path>, chunks: seq<UpdateFileChunk>, exact: bool): Outcome {
    match TextOf(tree, path)
    case None => Outcome(tree, [], exact && !IsDirectory(tree, path), Some(ReadFailed(path)))
    case Some(text) =>
      match DerivedContents(text, chunks)
      case Err(e) => Outcome(tree, [], exact, Some(ChunksFailed(e)))
      case Ok(updated) =>
        match dest
        case None => Outcome(WithFile(tree, path, updated), [Change(path, Updated(None, text, None, updated))], exact, None)
        case Some(d) => Moving(tree, path, d, text, updated, exact)
  }

  function Moving(tree: Tree, path: Path, dest: Path, text: string, updated: string, exact: bool): Outcome {
    if !Reachable(tree, dest) then Outcome(tree, [], false, Some(WriteFailed(dest)))
    else
      Outcome(WithFile(tree, dest, updated) - {path}, [Change(path, Updated(Some(dest), text, TextOf(tree, dest), updated))],
              exact && FreeOrText(tree, dest), None)
  }

  function HunkOutcome(tree: Tree, hunk: Hunk, exact: bool, resolve: string -> Path): Outcome {
    match hunk
    case AddFile(path, contents) => Adding(tree, resolve(path), contents, exact)
    case DeleteFile(path) => Deleting(tree, resolve(path), exact)
    case UpdateFile(path, None, chunks) => Updating(tree, resolve(path), None, chunks, exact)
    case UpdateFile(path, Some(dest), chunks) => Updating(tree, resolve(path), Some(resolve(dest)), chunks, exact)
  }

  /** The hunks in order, up to the first that fails. */
  function Outcomes(tree: Tree, hunks: seq<Hunk>, changes: seq<Change>, exact: bool, resolve: string -> Path): Outcome
    decreases |hunks|
  {
    if hunks == [] then Outcome(tree, changes, exact, None)
    else
      var first := HunkOutcome(tree, hunks[0], exact, resolve);
      if first.error.Some? then Outcome(first.tree, changes + first.changes, first.exact, first.error)
      else Outcomes(first.tree, hunks[1..], changes + first.changes, first.exact, resolve)
  }

  // ----- Writing

  lemma ParentPrefixes(path: Path)
    requires path != []
    ensures Prefixes(path) == Prefixes(path[..|path| - 1]) + {path}
  {
    var dir := path[..|path| - 1];
    forall p: Path
      ensures p in Prefixes(path) <==> p in Prefixes(dir) || p == path
    {
      if p in Prefixes(dir) {
        var i :| 0 <= i <= |dir| && p == dir[..i];
        assert p == path[..i];
      }
      if p in Prefixes(path) && p != path {
        var i :| 0 <= i <= |path| && p == path[..i];
        assert p == dir[..i];
      }
      assert path[..|path|] == path;
    }
  }

  /** With its directory there, a file is just added. */
  lemma WithFileHere(tree: Tree, path: Path, text: string)
    requires Coherent(tree) && (path == [] || IsDirectory(tree, path[..|path| - 1]))
    ensures WithFile(tree, path, text) == tree[path := File(Text(text))]
  {
    forall p | p in Prefixes(path) && p != path
      ensures p in tree
    {
      var i :| 0 <= i <= |path| && p == path[..i];
      var dir := path[..|path| - 1];
      assert p == dir[..i];
      assert i < |dir| ==> IsDirectory(tree, dir[..i]);
      assert i == |dir| ==> p == dir;
    }
    assert path[..|path|] == path && path in Prefixes(path);
  }

  lemma WithFileAndDirectories(tree: Tree, path: Path, text: string)
    requires path != []
    ensures WithFile(tree, path, text) == WithDirectories(tree, path[..|path| - 1])[path := File(Text(text))]
  {
    ParentPrefixes(path);
  }

  /** Nothing is in the way of the directories of a reachable path. */
  lemma OpenUnblocked(tree: Tree, path: Path)
    requires path != []
    ensures Blocked(tree, path[..|path| - 1]) <==> !Open(tree, path)
  {
    var dir := path[..|path| - 1];
    if !Open(tree, path) {
      var i :| 0 <= i < |path| && path[..i] in tree && !IsDirectory(tree, path[..i]);
      assert path[..i] == dir[..i];
      assert dir[..i] in Prefixes(dir);
    }
    if Blocked(tree, dir) {
      var p :| p in Prefixes(dir) && p in tree && !tree[p].Directory?;
      var i :| 0 <= i <= |dir| && p == dir[..i];
      assert p == path[..i];
    }
  }

  /** Without its directory, a path has no file. */
  lemma NothingBelow(tree: Tree, path: Path)
    requires Coherent(tree) && path != [] && path[..|path| - 1] !in tree
    ensures path !in tree
  {
    var n := |path| - 1;
    assert !IsDirectory(tree, path[..n]);
  }

  /** A directory leads to a path only if all directories do. */
  lemma ReachableHere(tree: Tree, path: Path)
    requires Coherent(tree) && (path == [] || path[..|path| - 1] in tree)
    ensures Reachable(tree, path) <==> !IsDirectory(tree, path) && (path == [] || IsDirectory(tree, path[..|path| - 1]))
  {
    if path != [] {
      var dir := path[..|path| - 1];
      forall i | 0 <= i < |dir|
        ensures path[..i] == dir[..i] && IsDirectory(tree, path[..i])
      {
        assert IsDirectory(tree, dir[..i]);
      }
    }
  }

  lemma WritesOnce(tree: Tree, path: Path, text: string)
    requires Coherent(tree) && (path == [] || path[..|path| - 1] in tree)
    ensures WriteFile(Disk(tree, []), path, text) ==
            if Reachable(tree, path) then (None, Disk(WithFile(tree, path, text), [])) else (Some(OtherError), Disk(tree, []))
  {
    ReachableHere(tree, path);
    if Reachable(tree, path) {
      WithFileHere(tree, path, text);
    }
  }

  /** A missing directory is created, and the write is tried again. */
  lemma WritesTwice(tree: Tree, path: Path, text: string)
    requires Coherent(tree) && path != [] && path[..|path| - 1] !in tree
    ensures WriteFile(Disk(tree, []), path, text) == (Some(NotFound), Disk(tree, []))
    ensures var (made, d) := CreateDirAll(Disk(tree, []), path[..|path| - 1]);
            if Reachable(tree, path)
            then made.None? && WriteFile(d, path, text) == (None, Disk(WithFile(tree, path, text), []))
            else made.Some? && d == Disk(tree, [])
  {
    var dir := path[..|path| - 1];
    NothingBelow(tree, path);
    OpenUnblocked(tree, path);
    WithFileAndDirectories(tree, path, text);
    assert dir[..|dir|] == dir && dir in Prefixes(dir);
    assert path !in Prefixes(dir);
  }

  lemma Writes(tree: Tree, path: Path, text: string)
    requires Coherent(tree)
    ensures WriteWithRetry(Disk(tree, []), path, text) ==
            if Reachable(tree, path) then (true, Disk(WithFile(tree, path, text), [])) else (false, Disk(tree, []))
  {
    if path == [] || path[..|path| - 1] in tree {
      WritesOnce(tree, path, text);
    } else {
      WritesTwice(tree, path, text);
    }
  }

  lemma StaysCoherent(tree: Tree, path: Path, text: string)
    requires Coherent(tree) && Reachable(tree, path)
    ensures Coherent(WithFile(tree, path, text))
  {
    var after := WithFile(tree, path, text);
    forall p, i | p in after && 0 <= i < |p|
      ensures IsDirectory(after, p[..i])
    {
      DirectoriesStay(tree, path, text, p, i);
    }
  }

  lemma DirectoriesStay(tree: Tree, path: Path, text: string, p: Path, i: nat)
    requires Coherent(tree) && Reachable(tree, path) && p in WithFile(tree, path, text) && i < |p|
    ensures IsDirectory(WithFile(tree, path, text), p[..i])
  {
    if p in tree {
      assert IsDirectory(tree, p[..i]);
    } else {
      var j :| 0 <= j <= |path| && p == path[..j];
      assert p[..i] == path[..i] && path[..i] in Prefixes(path);
    }
  }

  lemma StaysCoherentWithout(tree: Tree, path: Path)
    requires Coherent(tree) && path in tree && tree[path].File?
    ensures Coherent(tree - {path})
  {
    forall p, i | p in tree && p != path && 0 <= i < |p|
      ensures IsDirectory(tree - {path}, p[..i])
    {
      assert IsDirectory(tree, p[..i]);
    }
  }

  // ----- The hunks

  ghost predicate Agrees(s: Step, o: Outcome) {
    s == Step(Disk(o.tree, []), o.changes, o.exact, o.error)
  }

  lemma AddAgrees(tree: Tree, path: Path, contents: string, exact: bool)
    requires Coherent(tree)
    ensures Agrees(AddStep(Disk(tree, []), path, contents, exact), Adding(tree, path, contents, exact))
  {
    Writes(tree, path, contents);
  }

  lemma DeleteAgrees(tree: Tree, path: Path, exact: bool)
    requires Coherent(tree)
    ensures Agrees(DeleteStep(Disk(tree, []), path, exact), Deleting(tree, path, exact))
  {
  }

  lemma OverwriteAgrees(tree: Tree, path: Path, text: string, updated: string, exact: bool)
    requires Coherent(tree) && TextOf(tree, path) == Some(text)
    ensures OverwriteStep(Disk(tree, []), path, text, updated, exact) ==
            Step(Disk(WithFile(tree, path, updated), []), [Change(path, Updated(None, text, None, updated))], exact, None)
  {
    assert path != [] ==> IsDirectory(tree, path[..|path| - 1]);
    WritesOnce(tree, path, updated);
    ReachableHere(tree, path);
  }

  lemma MoveAgrees(tree: Tree, path: Path, dest: Path, text: string, updated: string, exact: bool)
    requires Coherent(tree) && TextOf(tree, path) == Some(text)
    ensures Agrees(MoveStep(Disk(tree, []), path, dest, text, updated, exact), Moving(tree, path, dest, text, updated, exact))
  {
    Writes(tree, dest, updated);
    if Reachable(tree, dest) {
      var after := WithFile(tree, dest, updated);
      assert path in after && after[path].File?;
    }
  }

  lemma UpdateAgrees(tree: Tree, path: Path, dest: Option<Path>, chunks: seq<UpdateFileChunk>, exact: bool)
    requires Coherent(tree)
    ensures Agrees(UpdateStep(Disk(tree, []), path, dest, chunks, exact), Updating(tree, path, dest, chunks, exact))
  {
    var text := TextOf(tree, path);
    if text.Some? {
      var derived := DerivedContents(text.value, chunks);
      if derived.Ok? {
        if dest.None? {
          OverwriteAgrees(tree, path, text.value, derived.value, exact);
        } else {
          MoveAgrees(tree, path, dest.value, text.value, derived.value, exact);
        }
      }
    }
  }

  /** On an ordinary filesystem, every hunk has its outcome, and the filesystem stays ordinary. */
  lemma HunkAgrees(tree: Tree, hunk: Hunk, exact: bool, resolve: string -> Path)
    requires Coherent(tree)
    ensures Agrees(ApplyHunk(Disk(tree, []), hunk, exact, resolve), HunkOutcome(tree, hunk, exact, resolve))
    ensures Coherent(HunkOutcome(tree, hunk, exact, resolve).tree)
  {
    match hunk
    case AddFile(path, contents) =>
      AddAgrees(tree, resolve(path), contents, exact);
      if Reachable(tree, resolve(path)) {
        StaysCoherent(tree, resolve(path), contents);
      }
    case DeleteFile(path) =>
      DeleteAgrees(tree, resolve(path), exact);
      if resolve(path) in tree && tree[resolve(path)].File? {
        StaysCoherentWithout(tree, resolve(path));
      }
    case UpdateFile(path, movePath, chunks) =>
      UpdateAgrees(tree, resolve(path), Destination(movePath, resolve), chunks, exact);
      UpdateCoherent(tree, resolve(path), Destination(movePath, resolve), chunks, exact);
  }

  lemma UpdateCoherent(tree: Tree, path: Path, dest: Option<Path>, chunks: seq<UpdateFileChunk>, exact: bool)
    requires Coherent(tree)
    ensures Coherent(Updating(tree, path, dest, chunks, exact).tree)
  {
    var text := TextOf(tree, path);
    if text.Some? && DerivedContents(text.value, chunks).Ok? {
      var updated := DerivedContents(text.value, chunks).value;
      var target := if dest.Some? then dest.value else path;
      if dest.None? {
        assert forall i :: 0 <= i < |path| ==> IsDirectory(tree, path[..i]);
      }
      if Reachable(tree, target) {
        StaysCoherent(tree, target, updated);
        var after := WithFile(tree, target, updated);
        assert path in after && after[path].File?;
        StaysCoherentWithout(after, path);
      }
    }
  }

  lemma {:induction false} OutcomesAgree(tree: Tree, hunks: seq<Hunk>, delta: Delta, resolve: string -> Path)
    requires Coherent(tree)
    ensures var o := Outcomes(tree, hunks, delta.changes, delta.exact, resolve);
            ApplyAll(Applying(resolve), Disk(tree, []), hunks, delta) == Run(Disk(o.tree, []), Delta(o.changes, o.exact), o.error)
    decreases |hunks|
  {
    if hunks != [] {
      var first := HunkOutcome(tree, hunks[0], delta.exact, resolve);
      HunkAgrees(tree, hunks[0], delta.exact, resolve);
      if first.error.None? {
        OutcomesAgree(first.tree, hunks[1..], Delta(delta.changes + first.changes, first.exact), resolve);
      }
    }
  }

  /** On an ordinary filesystem, the run is the outcomes of its hunks in turn. */
  lemma OrdinaryRun(tree: Tree, hunks: seq<Hunk>, resolve: string -> Path)
    requires Coherent(tree) && hunks != []
    ensures var o := Outcomes(tree, hunks, [], true, resolve);
            ApplyPatch(Disk(tree, []), hunks, resolve) == Run(Disk(o.tree, []), Delta(o.changes, o.exact), o.error)
  {
    OutcomesAgree(tree, hunks, Delta([], true), resolve);
  }

  /** In particular, a file can be added to a directory that is not there yet: it is created, and the record is exact. */
  lemma AddedInNewDirectory(tree: Tree, path: string, contents: string, resolve: string -> Path)
    requires Coherent(tree) && resolve(path) !in tree
    requires Open(tree, resolve(path))
    ensures var run := ApplyPatch(Disk(tree, []), [AddFile(path, contents)], resolve);
            && run.error.None? && run.delta == Delta([Change(resolve(path), Added(contents, None))], true)
            && Files(run.disk.tree) == Files(tree)[resolve(path) := Text(contents)]
            && forall i :: 0 <= i < |resolve(path)| ==> IsDirectory(run.disk.tree, resolve(path)[..i])
  {
    OneHunkRun(tree, AddFile(path, contents), resolve);
    FilesWithFile(tree, resolve(path), contents);
    DirectoriesMade(tree, resolve(path), contents);
  }

  lemma OneHunkRun(tree: Tree, hunk: Hunk, resolve: string -> Path)
    requires Coherent(tree)
    ensures var o := HunkOutcome(tree, hunk, true, resolve);
            ApplyPatch(Disk(tree, []), [hunk], resolve) == Run(Disk(o.tree, []), Delta(o.changes, o.exact), o.error)
  {
    var o := HunkOutcome(tree, hunk, true, resolve);
    OrdinaryRun(tree, [hunk], resolve);
    assert [hunk][1..] == [] && [] + o.changes == o.changes;
  }

  lemma DirectoriesMade(tree: Tree, path: Path, text: string)
    requires Coherent(tree) && Reachable(tree, path)
    ensures forall i :: 0 <= i < |path| ==> IsDirectory(WithFile(tree, path, text), path[..i])
  {
    StaysCoherent(tree, path, text);
    assert path[..|path|] == path && path in Prefixes(path);
  }

  lemma FilesWithFile(tree: Tree, path: Path, text: string)
    ensures Files(WithFile(tree, path, text)) == Files(tree)[path := Text(text)]
  {
    assert path[..|path|] == path && path in Prefixes(path);
  }
}
