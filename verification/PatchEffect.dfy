/**
 What a patch does to the files (internal/applypatch/apply.go): the effect of a
 run whose record is exact, and for which hunk lists every exact record can be
 redone.
 */
module PatchEffect {

  import opened PatchTypes
  import opened FileSystem
  import opened Replacements
  import opened PatchDelta

  // ----- The effect of a hunk that succeeds and leaves the record exact

  function TextAt(tree: Tree, path: Path): Option<string> {
    if path in tree && tree[path].File? && tree[path].content.Text? then Some(tree[path].content.text) else None
  }

  /** A target that the record can describe: nothing, or a text. */
  predicate Known(tree: Tree, path: Path) {
    path !in tree || TextAt(tree, path).Some?
  }

  function Written(tree: Tree, path: Path, text: string): Tree {
    tree[path := File(Text(text))]
  }

  /** The tree after a hunk, if the hunk can succeed and be recorded exactly. */
  function Applied(tree: Tree, hunk: Hunk, resolve: string -> Path): Option<Tree> {
    match hunk
    case AddFile(path, contents) =>
      if Known(tree, resolve(path)) then Some(Written(tree, resolve(path), contents)) else None
    case DeleteFile(path) =>
      if TextAt(tree, resolve(path)).Some? then Some(tree - {resolve(path)}) else None
    case UpdateFile(path, movePath, chunks) =>
      AppliedUpdate(tree, resolve(path), Destination(movePath, resolve), chunks)
  }

  /** A move writes its destination first and then removes its source, even if they are the same. */
  function AppliedUpdate(tree: Tree, path: Path, dest: Option<Path>, chunks: seq<UpdateFileChunk>): Option<Tree> {
    match TextAt(tree, path)
    case None => None
    case Some(text) =>
      match DerivedContents(text, chunks)
      case Err(_) => None
      case Ok(updated) =>
        match dest
        case None => Some(Written(tree, path, updated))
        case Some(d) => if Known(tree, d) then Some(Written(tree, d, updated) - {path}) else None
  }

  function AppliedAll(tree: Tree, hunks: seq<Hunk>, resolve: string -> Path): Option<Tree>
    decreases |hunks|
  {
    if hunks == [] then Some(tree)
    else
      match Applied(tree, hunks[0], resolve)
      case None => None
      case Some(after) => AppliedAll(after, hunks[1..], resolve)
  }

  // ----- Exact runs have this effect

  /** The files are those of the ideal tree, and what is no file there is none here. */
  predicate Mirrors(ideal: Tree, actual: Tree) {
    && Files(ideal) == Files(actual)
    && KeepsOthers(ideal, actual)
  }

  predicate KeepsOthers(before: Tree, after: Tree) {
    forall p :: p in before && !before[p].File? ==> p in after && !after[p].File?
  }

  lemma SameTexts(ideal: Tree, actual: Tree, path: Path)
    requires Files(ideal) == Files(actual)
    ensures TextAt(ideal, path) == TextAt(actual, path)
  {
    assert path in Files(ideal) <==> path in Files(actual);
  }

  lemma MirrorsKnown(ideal: Tree, actual: Tree, path: Path)
    requires Mirrors(ideal, actual) && Known(actual, path)
    ensures Known(ideal, path)
  {
    SameTexts(ideal, actual, path);
    assert path in ideal ==> ideal[path].File?;
    assert path in Files(ideal) <==> path in Files(actual);
  }

  lemma WriteKeeps(before: Tree, path: Path, text: string, status: Option<ErrorKind>, after: Tree)
    requires Plain(before, path) && WriteAllowed(before, path, text, status, after)
    ensures KeepsOthers(before, after) && Plain(after, path)
  {
  }

  lemma WriteWithRetryKeeps(disk: Disk, path: Path, text: string)
    requires Plain(disk.tree, path)
    ensures KeepsOthers(disk.tree, WriteWithRetry(disk, path, text).1.tree)
  {
    var (status, d) := WriteFile(disk, path, text);
    WriteKeeps(disk.tree, path, text, status, d.tree);
    if status == Some(NotFound) {
      var (made, d') := match ParentDir(path)
                        case None => (None, d)
                        case Some(dir) => CreateDirAll(d, dir);
      assert KeepsOthers(d.tree, d'.tree) && Plain(d'.tree, path);
      var (again, after) := WriteFile(d', path, text);
      WriteKeeps(d'.tree, path, text, again, after.tree);
    }
  }

  lemma RemoveStepKeeps(disk: Disk, path: Path, expected: Option<string>, exact: bool)
    requires Plain(disk.tree, path)
    ensures KeepsOthers(disk.tree, RemoveStep(disk, path, expected, exact).2.tree)
  {
    var (notDir, d) := IsNotDirectory(disk, path);
    var (status, after) := Remove(d, path);
    assert KeepsOthers(d.tree, after.tree);
  }

  /** What the files are after a change of one path, in the ideal tree and on the disk. */
  lemma MirrorsWritten(ideal: Tree, before: Tree, path: Path, text: string, after: Tree)
    requires Mirrors(ideal, before) && Known(ideal, path)
    requires Files(after) == Files(before)[path := Text(text)] && KeepsOthers(before, after)
    ensures Mirrors(Written(ideal, path, text), after)
  {
    assert Files(Written(ideal, path, text)) == Files(ideal)[path := Text(text)];
  }

  lemma MirrorsRemoved(ideal: Tree, before: Tree, path: Path, after: Tree)
    requires Mirrors(ideal, before) && Plain(ideal, path)
    requires Files(after) == Files(before) - {path} && KeepsOthers(before, after)
    ensures Mirrors(ideal - {path}, after)
  {
    assert Files(ideal - {path}) == Files(ideal) - {path};
  }

  lemma AddMirrors(ideal: Tree, disk: Disk, path: Path, contents: string, exact: bool)
    requires Mirrors(ideal, disk.tree)
    ensures var s := AddStep(disk, path, contents, exact);
            s.exact && s.error.None? ==> Known(ideal, path) && Mirrors(Written(ideal, path, contents), s.disk.tree)
  {
    var s := AddStep(disk, path, contents, exact);
    var (overwritten, noted, d) := ReadOptional(disk, path, exact);
    if s.exact && s.error.None? {
      MirrorsKnown(ideal, disk.tree, path);
      WriteWithRetryKeeps(d, path, contents);
      MirrorsWritten(ideal, disk.tree, path, contents, s.disk.tree);
    }
  }

  lemma DeleteMirrors(ideal: Tree, disk: Disk, path: Path, exact: bool)
    requires Mirrors(ideal, disk.tree)
    ensures var s := DeleteStep(disk, path, exact);
            s.exact && s.error.None? ==> TextAt(ideal, path).Some? && Mirrors(ideal - {path}, s.disk.tree)
  {
    var s := DeleteStep(disk, path, exact);
    var (noted, d) := NoteExisting(disk, path, exact);
    var (text, d1) := ReadFileText(d, path);
    if s.exact && s.error.None? {
      var content := if text.Ok? then Some(text.value) else None;
      RemoveFlag(d1, path, content, noted && content.Some?);
      RemoveStepEffect(d1, path, content, noted && content.Some?);
      RemoveStepKeeps(d1, path, content, noted && content.Some?);
      SameTexts(ideal, disk.tree, path);
      MirrorsRemoved(ideal, disk.tree, path, s.disk.tree);
    }
  }

  lemma OverwriteMirrors(ideal: Tree, disk: Disk, path: Path, original: string, updated: string, exact: bool)
    requires Mirrors(ideal, disk.tree) && (exact ==> TextAt(ideal, path) == Some(original))
    ensures var s := OverwriteStep(disk, path, original, updated, exact);
            s.exact && s.error.None? ==> Mirrors(Written(ideal, path, updated), s.disk.tree)
  {
    var s := OverwriteStep(disk, path, original, updated, exact);
    if s.exact && s.error.None? {
      SameTexts(ideal, disk.tree, path);
      WriteSetsFile(disk.tree, path, updated, s.disk.tree);
      WriteKeeps(disk.tree, path, updated, None, s.disk.tree);
      MirrorsWritten(ideal, disk.tree, path, updated, s.disk.tree);
    }
  }

  lemma MoveMirrors(ideal: Tree, disk: Disk, path: Path, dest: Path, original: string, updated: string, exact: bool)
    requires Mirrors(ideal, disk.tree) && (exact ==> TextAt(ideal, path) == Some(original))
    ensures var s := MoveStep(disk, path, dest, original, updated, exact);
            s.exact && s.error.None? ==> Known(ideal, dest) && Mirrors(Written(ideal, dest, updated) - {path}, s.disk.tree)
  {
    var s := MoveStep(disk, path, dest, original, updated, exact);
    var (overwritten, noted, d) := ReadOptional(disk, dest, exact);
    var (ok, d1) := WriteWithRetry(d, dest, updated);
    SameTexts(ideal, disk.tree, path);
    MoveHalfway(disk, path, dest, original, updated, exact);
    if s.exact && s.error.None? {
      RemoveFlag(d1, path, Some(original), noted);
      MirrorsKnown(ideal, disk.tree, dest);
      WriteWithRetryKeeps(d, dest, updated);
      MirrorsWritten(ideal, disk.tree, dest, updated, d1.tree);
      RemoveStepEffect(d1, path, Some(original), noted);
      RemoveStepKeeps(d1, path, Some(original), noted);
      MirrorsRemoved(Written(ideal, dest, updated), d1.tree, path, s.disk.tree);
    }
  }

  /** A hunk that succeeds and keeps the flag does to the files what `Applied` says. */
  lemma HunkMirrors(ideal: Tree, disk: Disk, hunk: Hunk, exact: bool, resolve: string -> Path)
    requires Mirrors(ideal, disk.tree)
    ensures var s := ApplyHunk(disk, hunk, exact, resolve);
            s.exact && s.error.None? ==>
              Applied(ideal, hunk, resolve).Some? && Mirrors(Applied(ideal, hunk, resolve).value, s.disk.tree)
  {
    match hunk
    case AddFile(path, contents) =>
      AddMirrors(ideal, disk, resolve(path), contents, exact);
    case DeleteFile(path) =>
      DeleteMirrors(ideal, disk, resolve(path), exact);
    case UpdateFile(p, movePath, chunks) =>
      var path := resolve(p);
      var dest := Destination(movePath, resolve);
      var (noted, d) := NoteExisting(disk, path, exact);
      var (text, d1) := ReadFileText(d, path);
      SameTexts(ideal, disk.tree, path);
      if text.Ok? && DerivedContents(text.value, chunks).Ok? {
        var updated := DerivedContents(text.value, chunks).value;
        if dest.None? {
          OverwriteMirrors(ideal, d1, path, text.value, updated, noted);
          OverwriteIsExact(d1, path, text.value, updated, noted);
        } else {
          MoveMirrors(ideal, d1, path, dest.value, text.value, updated, noted);
          MoveIsExact(d1, path, dest.value, text.value, updated, noted);
        }
      }
  }

  lemma {:induction false} RunMirrors(ideal: Tree, disk: Disk, hunks: seq<Hunk>, delta: Delta, resolve: string -> Path)
    requires Mirrors(ideal, disk.tree)
    ensures var run := ApplyAll(Applying(resolve), disk, hunks, delta);
            && (run.delta.exact ==> delta.exact)
            && (run.delta.exact && run.error.None? ==>
                  AppliedAll(ideal, hunks, resolve).Some? && Mirrors(AppliedAll(ideal, hunks, resolve).value, run.disk.tree))
            && (run.delta.exact && StopsRewriting(disk, hunks, delta.exact, resolve) ==> !NeverRewrites(ideal, hunks, resolve))
    decreases |hunks|
  {
    if hunks != [] {
      var s := ApplyHunk(disk, hunks[0], delta.exact, resolve);
      HunkMirrors(ideal, disk, hunks[0], delta.exact, resolve);
      HunkIsExact(disk, hunks[0], delta.exact, resolve);
      SameRewrites(ideal, disk.tree, hunks[0], resolve);
      if s.error.None? {
        var delta' := Delta(delta.changes + s.changes, s.exact);
        if s.exact {
          RunMirrors(Applied(ideal, hunks[0], resolve).value, s.disk, hunks[1..], delta', resolve);
        } else {
          RunMirrors(s.disk.tree, s.disk, hunks[1..], delta', resolve);
        }
      }
    }
  }

  lemma SameRewrites(ideal: Tree, actual: Tree, hunk: Hunk, resolve: string -> Path)
    requires Files(ideal) == Files(actual)
    ensures RewritesOntoItself(hunk, ideal, resolve) <==> RewritesOntoItself(hunk, actual, resolve)
  {
    if hunk.UpdateFile? {
      SameTexts(ideal, actual, resolve(hunk.path));
    }
  }

  /** A successful run with an exact record leaves the files that its hunks, applied in turn, leave. */
  lemma SuccessfulRunEffect(disk: Disk, hunks: seq<Hunk>, resolve: string -> Path)
    ensures var run := ApplyPatch(disk, hunks, resolve);
            run.delta.exact && run.error.None? ==>
              && AppliedAll(disk.tree, hunks, resolve).Some?
              && Files(run.disk.tree) == Files(AppliedAll(disk.tree, hunks, resolve).value)
  {
    if hunks != [] {
      RunMirrors(disk.tree, disk, hunks, Delta([], true), resolve);
    }
  }

  /** Applying one more hunk after some others. */
  lemma {:induction false} AppliedLast(tree: Tree, hunks: seq<Hunk>, last: Hunk, resolve: string -> Path)
    ensures AppliedAll(tree, hunks + [last], resolve) ==
            match AppliedAll(tree, hunks, resolve)
            case None => None
            case Some(earlier) => Applied(earlier, last, resolve)
    decreases |hunks|
  {
    if hunks == [] {
      assert hunks + [last] == [last] && AppliedAll(tree, [last], resolve) == Applied(tree, last, resolve);
    } else {
      assert (hunks + [last])[1..] == hunks[1..] + [last];
      match Applied(tree, hunks[0], resolve)
      case None =>
      case Some(after) => AppliedLast(after, hunks[1..], last, resolve);
    }
  }

  lemma MovedFiles(tree: Tree, path: Path, dest: Path, chunks: seq<UpdateFileChunk>)
    requires AppliedUpdate(tree, path, Some(dest), chunks).Some?
    ensures TextAt(tree, path).Some? && DerivedContents(TextAt(tree, path).value, chunks).Ok?
    ensures Files(AppliedUpdate(tree, path, Some(dest), chunks).value) ==
            Files(tree)[dest := Text(DerivedContents(TextAt(tree, path).value, chunks).value)] - {path}
  {
  }

  /**
   When a successful run with an exact record ends with a move, the source is gone
   and the derived text is at the destination, unless that is the source: then the
   file is gone altogether. The other files are those that the earlier hunks leave.
   */
  lemma MoveEffect(disk: Disk, hunks: seq<Hunk>, source: string, target: string, chunks: seq<UpdateFileChunk>, resolve: string -> Path)
    returns (earlier: Tree, updated: string)
    requires var run := ApplyPatch(disk, hunks + [UpdateFile(source, Some(target), chunks)], resolve);
             run.delta.exact && run.error.None?
    ensures AppliedAll(disk.tree, hunks, resolve) == Some(earlier)
    ensures TextAt(earlier, resolve(source)).Some? && DerivedContents(TextAt(earlier, resolve(source)).value, chunks) == Ok(updated)
    ensures var files := Files(ApplyPatch(disk, hunks + [UpdateFile(source, Some(target), chunks)], resolve).disk.tree);
            && files == Files(earlier)[resolve(target) := Text(updated)] - {resolve(source)}
            && (resolve(target) in files <==> resolve(target) != resolve(source))
  {
    var last := UpdateFile(source, Some(target), chunks);
    SuccessfulRunEffect(disk, hunks + [last], resolve);
    AppliedLast(disk.tree, hunks, last, resolve);
    earlier := AppliedAll(disk.tree, hunks, resolve).value;
    MovedFiles(earlier, resolve(source), resolve(target), chunks);
    updated := DerivedContents(TextAt(earlier, resolve(source)).value, chunks).value;
  }

  // ----- When every exact record can be redone

  /** No hunk, applied to the files that the hunks before it leave exactly, rewrites a file onto itself. */
  predicate NeverRewrites(tree: Tree, hunks: seq<Hunk>, resolve: string -> Path)
    decreases |hunks|
  {
    hunks == [] ||
    (&& !RewritesOntoItself(hunks[0], tree, resolve)
     && match Applied(tree, hunks[0], resolve)
        case None => true
        case Some(after) => NeverRewrites(after, hunks[1..], resolve))
  }

  /** The answer of a disk that tells the truth about a path, and then is in the state `after`. */
  function Truth(tree: Tree, path: Path, after: Tree): Answer {
    Answer(
      match TextAt(tree, path) case Some(text) => Ok(text) case None => Err(NotFound),
      if path in tree then Ok(MetadataOf(tree[path])) else Err(NotFound),
      None,
      after)
  }

  lemma TruthTold(tree: Tree, path: Path, rest: seq<Answer>)
    requires Known(tree, path)
    ensures var disk := Disk(tree, [Truth(tree, path, tree)] + rest);
            && NoteExisting(disk, path, true) == (true, Disk(tree, rest))
            && ReadFileText(disk, path) == (Truth(tree, path, tree).text, Disk(tree, rest))
            && (path in tree ==> IsNotDirectory(disk, path) == (true, Disk(tree, rest)))
  {
    EveryAllowedOutcomeHappens(tree, path, "", Truth(tree, path, tree), rest);
  }

  lemma TruthReadOptional(tree: Tree, path: Path, rest: seq<Answer>)
    requires Known(tree, path)
    ensures var truth := Truth(tree, path, tree);
            ReadOptional(Disk(tree, [truth] + ([truth] + rest)), path, true) == (TextAt(tree, path), true, Disk(tree, rest))
  {
    TruthTold(tree, path, [Truth(tree, path, tree)] + rest);
    TruthTold(tree, path, rest);
  }

  lemma TruthWrites(tree: Tree, path: Path, text: string, rest: seq<Answer>)
    requires Known(tree, path)
    ensures var disk := Disk(tree, [Truth(tree, path, Written(tree, path, text))] + rest);
            && WriteFile(disk, path, text) == (None, Disk(Written(tree, path, text), rest))
            && WriteWithRetry(disk, path, text) == (true, Disk(Written(tree, path, text), rest))
  {
    EveryAllowedOutcomeHappens(tree, path, text, Truth(tree, path, Written(tree, path, text)), rest);
  }

  lemma TruthRemoves(tree: Tree, path: Path, expected: Option<string>, rest: seq<Answer>)
    requires TextAt(tree, path).Some?
    ensures var answers := [Truth(tree, path, tree)] + ([Truth(tree, path, tree - {path})] + rest);
            RemoveStep(Disk(tree, answers), path, expected, true) == (true, true, Disk(tree - {path}, rest))
  {
    TruthTold(tree, path, [Truth(tree, path, tree - {path})] + rest);
    EveryAllowedOutcomeHappens(tree, path, "", Truth(tree, path, tree - {path}), rest);
  }

  /** On some disk, a hunk that can succeed exactly does. */
  lemma HunkSucceeds(tree: Tree, hunk: Hunk, resolve: string -> Path, rest: seq<Answer>) returns (answers: seq<Answer>)
    requires Applied(tree, hunk, resolve).Some?
    ensures var s := ApplyHunk(Disk(tree, answers), hunk, true, resolve);
            s.exact && s.error.None? && s.disk == Disk(Applied(tree, hunk, resolve).value, rest)
  {
    match hunk
    case AddFile(p, contents) =>
      var path := resolve(p);
      var truth := Truth(tree, path, tree);
      var tail := [Truth(tree, path, Written(tree, path, contents))] + rest;
      answers := [truth] + ([truth] + tail);
      TruthReadOptional(tree, path, tail);
      TruthWrites(tree, path, contents, rest);
    case DeleteFile(p) =>
      var path := resolve(p);
      var truth := Truth(tree, path, tree);
      var tail := [truth] + ([Truth(tree, path, tree - {path})] + rest);
      answers := [truth] + ([truth] + tail);
      TruthTold(tree, path, [truth] + tail);
      TruthTold(tree, path, tail);
      TruthRemoves(tree, path, TextAt(tree, path), rest);
    case UpdateFile(p, movePath, chunks) =>
      answers := UpdateSucceeds(tree, resolve(p), Destination(movePath, resolve), chunks, rest);
  }

  lemma UpdateSucceeds(tree: Tree, path: Path, dest: Option<Path>, chunks: seq<UpdateFileChunk>, rest: seq<Answer>)
    returns (answers: seq<Answer>)
    requires AppliedUpdate(tree, path, dest, chunks).Some?
    ensures var s := UpdateStep(Disk(tree, answers), path, dest, chunks, true);
            s.exact && s.error.None? && s.disk == Disk(AppliedUpdate(tree, path, dest, chunks).value, rest)
  {
    var original := TextAt(tree, path).value;
    var updated := DerivedContents(original, chunks).value;
    var truth := Truth(tree, path, tree);
    var tail: seq<Answer>;
    if dest.None? {
      tail := [Truth(tree, path, Written(tree, path, updated))] + rest;
      TruthWrites(tree, path, updated, rest);
    } else {
      tail := MoveSucceeds(tree, path, dest.value, original, updated, rest);
    }
    answers := [truth] + ([truth] + tail);
    TruthTold(tree, path, [truth] + tail);
    TruthTold(tree, path, tail);
  }

  lemma MoveSucceeds(tree: Tree, path: Path, dest: Path, original: string, updated: string, rest: seq<Answer>)
    returns (answers: seq<Answer>)
    requires TextAt(tree, path) == Some(original) && Known(tree, dest)
    ensures var s := MoveStep(Disk(tree, answers), path, dest, original, updated, true);
            s.exact && s.error.None? && s.disk == Disk(Written(tree, dest, updated) - {path}, rest)
  {
    var halfway := Written(tree, dest, updated);
    var last := [Truth(halfway, path, halfway)] + ([Truth(halfway, path, halfway - {path})] + rest);
    var tail := [Truth(tree, dest, halfway)] + last;
    var truth := Truth(tree, dest, tree);
    answers := [truth] + ([truth] + tail);
    TruthReadOptional(tree, dest, tail);
    TruthWrites(tree, dest, updated, last);
    TruthRemoves(halfway, path, Some(original), rest);
  }

  /** A removal that fails and puts the original text back passes for harmless. */
  lemma RemovalDeceives(tree: Tree, path: Path, updated: string) returns (answers: seq<Answer>)
    requires TextAt(tree, path).Some?
    ensures RemoveStep(Disk(Written(tree, path, updated), answers), path, TextAt(tree, path), true) == (false, true, Disk(tree, []))
  {
    var written := Written(tree, path, updated);
    var fail := Truth(written, path, tree).(status := Some(OtherError));
    var last := [Truth(tree, path, tree)] + [];
    answers := [Truth(written, path, written)] + ([fail] + last);
    TruthTold(written, path, [fail] + last);
    EveryAllowedOutcomeHappens(written, path, "", fail, last);
    TruthTold(tree, path, []);
  }

  /** A removal that fails and leaves the tree `after`. */
  lemma RemovalRefused(tree: Tree, path: Path, e: ErrorKind, after: Tree)
    requires TextAt(tree, path).Some? && RemoveAllowed(tree, path, Some(e), after)
    ensures var refusal := Truth(tree, path, after).(status := Some(e));
            RemoveStep(Disk(tree, [Truth(tree, path, tree)] + [refusal]), path, TextAt(tree, path), true) ==
            (false, TextAt(after, path) == TextAt(tree, path), Disk(after, []))
  {
    var refusal := Truth(tree, path, after).(status := Some(e));
    TruthTold(tree, path, [refusal]);
    EveryAllowedOutcomeHappens(tree, path, "", refusal, []);
    assert [refusal] + [] == [refusal];
  }

  /** A deletion that is refused keeps the flag exactly if the file still holds its text. */
  lemma DeletionRefused(tree: Tree, path: Path, e: ErrorKind, after: Tree)
    requires TextAt(tree, path).Some? && RemoveAllowed(tree, path, Some(e), after)
    ensures var truth, refusal := Truth(tree, path, tree), Truth(tree, path, after).(status := Some(e));
            DeleteStep(Disk(tree, [truth] + ([truth] + ([truth] + [refusal]))), path, true) ==
            Step(Disk(after, []), [], TextAt(after, path) == TextAt(tree, path), Some(DeleteFailed(path)))
  {
    var truth, refusal := Truth(tree, path, tree), Truth(tree, path, after).(status := Some(e));
    TruthTold(tree, path, [truth] + ([truth] + [refusal]));
    TruthTold(tree, path, [truth] + [refusal]);
    RemovalRefused(tree, path, e, after);
  }

  /** So does a move to another path; what it wrote there stays on record. */
  lemma MoveRefused(tree: Tree, path: Path, dest: Path, updated: string, e: ErrorKind, after: Tree)
    requires TextAt(tree, path).Some? && Known(tree, dest) && dest != path
    requires RemoveAllowed(Written(tree, dest, updated), path, Some(e), after)
    ensures var original, halfway := TextAt(tree, path).value, Written(tree, dest, updated);
            var refusal := Truth(halfway, path, after).(status := Some(e));
            var last := [Truth(halfway, path, halfway)] + [refusal];
            var answers := [Truth(tree, dest, tree)] + ([Truth(tree, dest, tree)] + ([Truth(tree, dest, halfway)] + last));
            MoveStep(Disk(tree, answers), path, dest, original, updated, true) ==
            Step(Disk(after, []), [Change(dest, Added(updated, TextAt(tree, dest)))], TextAt(after, path) == Some(original),
                 Some(RemoveOriginalFailed(path)))
  {
    var halfway := Written(tree, dest, updated);
    var last := [Truth(halfway, path, halfway)] + [Truth(halfway, path, after).(status := Some(e))];
    TruthReadOptional(tree, dest, [Truth(tree, dest, halfway)] + last);
    TruthWrites(tree, dest, updated, last);
    RemovalRefused(halfway, path, e, after);
  }

  lemma MoveDeceives(tree: Tree, path: Path, updated: string) returns (answers: seq<Answer>)
    requires TextAt(tree, path).Some?
    ensures var original := TextAt(tree, path).value;
            MoveStep(Disk(tree, answers), path, path, original, updated, true) ==
            Step(Disk(tree, []), [Change(path, Added(updated, Some(original)))], true, Some(RemoveOriginalFailed(path)))
  {
    var last := RemovalDeceives(tree, path, updated);
    var tail := [Truth(tree, path, Written(tree, path, updated))] + last;
    var truth := Truth(tree, path, tree);
    answers := [truth] + ([truth] + tail);
    TruthReadOptional(tree, path, tail);
    TruthWrites(tree, path, updated, last);
  }

  /** Every hunk that rewrites a file onto itself can leave an exact record that does not redo it. */
  lemma SelfMoveCounterexample(hunk: Hunk, tree: Tree, resolve: string -> Path) returns (answers: seq<Answer>)
    requires RewritesOntoItself(hunk, tree, resolve)
    ensures var s := ApplyHunk(Disk(tree, answers), hunk, true, resolve);
            s.exact && s.error.Some? && !Redoes(Files(tree), s.changes, Files(s.disk.tree))
  {
    var path := resolve(hunk.path);
    var original := TextAt(tree, path).value;
    var updated := DerivedContents(original, hunk.chunks).value;
    var tail := MoveDeceives(tree, path, updated);
    var truth := Truth(tree, path, tree);
    answers := [truth] + ([truth] + tail);
    TruthTold(tree, path, [truth] + tail);
    TruthTold(tree, path, tail);
    var change := Change(path, Added(updated, Some(original)));
    OneChange(Files(tree), change, Files(tree));
    assert Files(tree)[path := Text(updated)][path] != Files(tree)[path];
  }

  /** A single hunk is redone by its exact record on every filesystem exactly when it does not rewrite a file onto itself. */
  lemma RedoIffNotRewrittenOntoItself(hunk: Hunk, tree: Tree, resolve: string -> Path)
    ensures (forall answers :: StepRedoes(tree, ApplyHunk(Disk(tree, answers), hunk, true, resolve))) <==>
            !RewritesOntoItself(hunk, tree, resolve)
  {
    if RewritesOntoItself(hunk, tree, resolve) {
      var answers := SelfMoveCounterexample(hunk, tree, resolve);
      assert !StepRedoes(tree, ApplyHunk(Disk(tree, answers), hunk, true, resolve));
    } else {
      forall answers
        ensures StepRedoes(tree, ApplyHunk(Disk(tree, answers), hunk, true, resolve))
      {
        HunkIsExact(Disk(tree, answers), hunk, true, resolve);
      }
    }
  }

  /** The changes made before a run do not influence it. */
  lemma {:induction false} ApplyAllPrefix(apply: Applier, disk: Disk, hunks: seq<Hunk>, delta: Delta)
    ensures var run := ApplyAll(apply, disk, hunks, Delta([], delta.exact));
            ApplyAll(apply, disk, hunks, delta) ==
            Run(run.disk, Delta(delta.changes + run.delta.changes, run.delta.exact), run.error)
    decreases |hunks|
  {
    if hunks == [] {
      assert delta.changes + [] == delta.changes;
    } else {
      var s := apply(disk, hunks[0], delta.exact);
      assert [] + s.changes == s.changes;
      if s.error.None? {
        var later := ApplyAll(apply, s.disk, hunks[1..], Delta([], s.exact));
        ApplyAllPrefix(apply, s.disk, hunks[1..], Delta(delta.changes + s.changes, s.exact));
        ApplyAllPrefix(apply, s.disk, hunks[1..], Delta(s.changes, s.exact));
        assert delta.changes + s.changes + later.delta.changes == delta.changes + (s.changes + later.delta.changes);
      }
    }
  }

  /** The flag of the run is set, but its record does not lead to its final files. */
  predicate Deceives(tree: Tree, run: Run) {
    run.delta.exact && !Redoes(Files(tree), run.delta.changes, Files(run.disk.tree))
  }

  /** A hunk that rewrites a file onto itself and can be reached deceives the flag on some disk. */
  lemma {:induction false} RewriteDeceives(tree: Tree, hunks: seq<Hunk>, resolve: string -> Path) returns (answers: seq<Answer>)
    requires !NeverRewrites(tree, hunks, resolve)
    ensures Deceives(tree, ApplyAll(Applying(resolve), Disk(tree, answers), hunks, Delta([], true)))
    decreases |hunks|
  {
    if RewritesOntoItself(hunks[0], tree, resolve) {
      answers := SelfMoveCounterexample(hunks[0], tree, resolve);
      var s := ApplyHunk(Disk(tree, answers), hunks[0], true, resolve);
      HunkIsExact(Disk(tree, answers), hunks[0], true, resolve);
      assert [] + s.changes == s.changes;
    } else {
      var after := Applied(tree, hunks[0], resolve).value;
      var later := RewriteDeceives(after, hunks[1..], resolve);
      answers := HunkSucceeds(tree, hunks[0], resolve, later);
      DeceivesAfter(tree, hunks, resolve, answers);
    }
  }

  /** A run that deceives from its second hunk on deceives from the first. */
  lemma DeceivesAfter(tree: Tree, hunks: seq<Hunk>, resolve: string -> Path, answers: seq<Answer>)
    requires hunks != []
    requires var s := ApplyHunk(Disk(tree, answers), hunks[0], true, resolve);
             && s.exact && s.error.None?
             && Deceives(s.disk.tree, ApplyAll(Applying(resolve), s.disk, hunks[1..], Delta([], true)))
    ensures Deceives(tree, ApplyAll(Applying(resolve), Disk(tree, answers), hunks, Delta([], true)))
  {
    var disk := Disk(tree, answers);
    var s := ApplyHunk(disk, hunks[0], true, resolve);
    var later := ApplyAll(Applying(resolve), s.disk, hunks[1..], Delta([], true));
    HunkIsExact(disk, hunks[0], true, resolve);
    ApplyAllPrefix(Applying(resolve), s.disk, hunks[1..], Delta(s.changes, true));
    assert [] + s.changes == s.changes;
    RedoesConcat(Files(tree), s.changes, Files(s.disk.tree), later.delta.changes,
                 RedoAll(Files(s.disk.tree), later.delta.changes));
  }

  /**
   Every exact record of a hunk list can be redone, on every filesystem and after
   every failure, exactly when no hunk, applied to the files that the hunks before
   it leave, rewrites a file onto itself.
   */
  lemma RedoIffNeverRewrites(tree: Tree, hunks: seq<Hunk>, resolve: string -> Path)
    ensures (forall answers :: !Deceives(tree, ApplyPatch(Disk(tree, answers), hunks, resolve))) <==>
            NeverRewrites(tree, hunks, resolve)
  {
    if NeverRewrites(tree, hunks, resolve) {
      forall answers
        ensures !Deceives(tree, ApplyPatch(Disk(tree, answers), hunks, resolve))
      {
        NeverDeceives(Disk(tree, answers), hunks, resolve);
      }
    } else {
      var answers := RewriteDeceives(tree, hunks, resolve);
      assert Deceives(tree, ApplyPatch(Disk(tree, answers), hunks, resolve));
    }
  }

  lemma NeverDeceives(disk: Disk, hunks: seq<Hunk>, resolve: string -> Path)
    requires NeverRewrites(disk.tree, hunks, resolve)
    ensures !Deceives(disk.tree, ApplyPatch(disk, hunks, resolve))
  {
    ExactDeltaUndoesAndRedoes(disk, hunks, resolve);
    if hunks != [] {
      RunMirrors(disk.tree, disk, hunks, Delta([], true), resolve);
    }
  }
}
