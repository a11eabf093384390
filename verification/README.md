# Models of the patch engine, the agent graph, the stream aggregators and the app-server clients

This project models four parts of the repository in Dafny and proves what they promise.

**The patch engine** (`internal/applypatch`). A patch envelope is parsed (`PatchParser`), its
chunks are located in a file by a search with four levels of strictness (`SeekSequence`), the
replacements are scheduled, sorted and applied in place (`Replacements`), the result is committed to
a filesystem that may fail (`FileSystem`, `PatchDelta`, `ApplyHunks`), and the change is shown as a
unified diff computed with the algorithm of Myers (`EditScript`, `Myers`, `Hunks`, `UnifiedDiff`, `DiffText`).
`Likeness` and `ChunkPlacement` say what the search and the scheduling must answer, and `DiffReading` how
a diff is read. `PatchEffect` says what a run does to the files, and `OrdinaryFiles` fixes every outcome on
an ordinary filesystem. `PatchText` holds the texts of a patch, following the grammar of
`internal/applypatch/doc.go`. `PatchPrinter`, `OldLineCount` and `PatchRoundTrip` show which of them the
parser reads back, `PatchSeen` what it reads of the others, `PatchGrammar` that it accepts nothing else,
and `PatchImage` what it can return.

**The agent spawn graph** (`internal/agentgraph`). `AgentGraph` holds the store that keeps the edges
in a map and walks them breadth first, and the meaning of the recursive SQL query of the other store.
`AgentChains` says what it means to descend from a thread.

**The stream aggregators** (`internal/api`). `ChatStream` and `ChatRuns` model the aggregation of a
chat-completions stream, `ResponsesStream` the loop over a Responses stream. Both send their results
into an `Outbox` (`Streams`) whose consumer may go away at any send. `ChatPayload` and
`ResponsesReference` say what the runs say of the payloads, field by field and event by event.

**Request and response correlation** (`internal/appserverclient`). `Correlation` models the clients
as a state machine whose steps are the atomic sections of the concurrent methods, in any order and
number. The ids are matched as section 5 (Response object) of the JSON-RPC 2.0 specification asks.

Code that changes things step by step is a class or a method with loops, proved against a
specification function; what the repository promises is then proved about that function.

## What the proofs show about the code

- **Diff.** The script is valid and has the fewest insertions and deletions of all valid scripts,
  `n + m - 2 * LCS`. Of the cheapest scripts it is the only one in which every edit is made as late as
  possible, and by an insertion where it can be (`LateScriptUnique`); hence removed lines are shown
  before added ones (`DeletionsFirst`). The forward loop may look outside the grid, but its first stop is the corner
  `(n, m)`; round `d` reads only what round `d - 1` wrote.
- **Hunk headers without context.** With at least one line of context, applying the hunks strictly
  to the old lines gives the new lines. With none, a hunk whose one side is empty gets start 0 for
  that side wherever it lies; the hunks then apply if and only if every such hunk lies at the start
  of that side (`HunkRoundTrip`, counterexample `NoContextBreaksHeaders`).
- **Diff text.** The text of a diff reads in only one way, as hunks that patch the old lines into the
  new ones (`DiffPatches`), up to padded newlines. Two updates of one
  text that show the same diff are the same if and only if they agree on whether their last line
  lacks its newline (`SameDiffSameUpdate`, counterexample `MissingNewlineHidden`); updates that come
  from patch chunks always agree, whatever the original ended in (`SameDiffSameDerived`).
- **Splicing.** Every scheduled replacement lies inside the file, for all chunks. The replacements
  need not be disjoint: an end-of-file chunk may match lines that an earlier chunk took
  (`EndOfFileChunkMayOverlap`), and an addition placed before a trailing blank line may fall into a
  replaced range (`AdditionBeforeBlankMayBeLost`). They are disjoint, and the in-place edits are the
  simple splice, if and only if every chunk tied to the end of the file starts no earlier than the
  furthest end so far, and no other chunk straddles an addition (`GuardedChunksSplice`).
- **Trailing newlines.** A text without chunks to apply comes back unchanged if and only if it is
  empty or ends in exactly one newline after some other character; one newline is added if there is
  none, one of several is lost, and the text that is only a newline comes back empty (`FileRoundTrip`).
- **Exact deltas.** An exact delta always leads back to the initial files, after success and after
  every failure. It leads forward to the final files if and only if the run did not stop at a hunk that
  rewrites a file onto itself, with the removal failed and the file put back: then the record says that
  the new text was written and the flag stays set (`ExactDeltaUndoesAndRedoes`,
  `SelfMoveCounterexample`). Every exact record of a hunk list can be redone, on every filesystem, if
  and only if no hunk, applied to the files that the hunks before it leave, rewrites a file onto itself
  (`RedoIffNeverRewrites`).
- **Effect.** A successful run with an exact delta leaves exactly the files that its hunks, applied in
  turn, leave (`SuccessfulRunEffect`). A move leaves its text at the destination if and only if that is
  not the source: a successful move onto itself deletes the file (`MoveEffect`, of any run that ends with
  a move). On an ordinary filesystem of files and directories every outcome is fixed: the files, the
  record, the flag and the error (`OrdinaryRun`); a file can be added to a missing directory, which is
  created (`AddedInNewDirectory`).
- **Error lines.** Bad headers, empty updates and missing `@@` lines are reported at their exact
  line. An unexpected line in a chunk is reported exactly if the chunk has an `@@` line, and one line
  too late if the first chunk of an update omits it (`PatchErrorLocated`, example `UnexpectedLineOneLate`).
- **Grammar.** A grammatical patch need not be read as what it says. A first chunk without its `@@` line
  loses the leading lines that look blank, because they are skipped before the chunk is read, so that a
  replacement may become an addition (`BlankStartBecomesAddition`); and the parser rejects an update
  without a chunk, such as one that only renames (`RenameOnlyRefused`), and a chunk without change lines.
  A patch is read back if and only if every update has a chunk, every chunk has a change line, and no
  update starts with an unmarked chunk whose first line looks blank (`PrintedPatchReadBack`). If
  something is left of every chunk without these lines, then what is left is what is read
  (`SeenPatchRead`). The code also accepts an added file without lines, where the grammar asks for at
  least one. Otherwise every text that parses follows the grammar, up to whitespace around headers and
  blank lines around chunks, and is read as what its lines say (`AcceptedIsSpelled`). Over all texts,
  with or without carriage returns, the parser returns exactly the printable patches (`ParserImage`).
- **Registry.** The id of a request that has finished is still registered if and only if it returned
  because reading had ended, no shutdown has happened, and no response has been sent to it or is held for
  it (`FinishedRegisteredIff`; runs that leave the id and that take it in `ReadDoneMayLeaveRegistered`).
- **Cycles.** The in-memory listing ends on every edge map. Every child has one parent, so a cycle
  that can be reached from the root runs through it; the recursive query has a finite answer if and
  only if the root is not its own descendant, and then both stores list the same threads in the same
  order (`StoresAgree`).

## Model

| member | source | states |
|---|---|---|
| `EditScript.ScriptTransforms` | internal/applypatch/diff.go:49-55 | a valid script's deletions and equal lines spell the old text, and its insertions and equal lines the new text |
| `EditScript.CostAtLeastLcs` | internal/applypatch/diff.go:98-100 | no valid script has fewer changes than both lengths less twice the longest common subsequence |
| `EditScript.LcsScript` | internal/applypatch/diff.go:98-100 | a script with exactly that many changes exists |
| `Myers.Dominates` | internal/applypatch/diff.go:118-130 | the entry of a diagonal after `d` changes is at least as far as any path with those deletions and insertions gets |
| `Myers.ClippedScript` | internal/applypatch/diff.go:118-134 | every entry of the table, even one outside the grid, is witnessed by a real path clipped to the grid that costs correspondingly less |
| `Myers.ScriptStops` | internal/applypatch/diff.go:131-134 | every valid script makes the stop test succeed in the round of its cost |
| `Myers.NoCheaperScript` | internal/applypatch/diff.go:113-139 | if no round before `d` stops, no valid script costs less than `d` |
| `Myers.FirstStopIsCorner` | internal/applypatch/diff.go:131-134 | although the test is an inequality, the first stop is exactly at the end of both texts, where backtracking starts |
| `Myers.StopExists` | internal/applypatch/diff.go:113-139 | a stop is found by round `n + m` |
| `Myers.BranchReadsPreviousRound` | internal/applypatch/diff.go:120-124 | a round's branch reads the entries of the round before, though one array holds both |
| `Myers.ParityFrame` | internal/applypatch/diff.go:118-130 | writing a diagonal leaves all entries of the round before intact, by parity |
| `Myers.Extend` | internal/applypatch/diff.go:119-130 | one pass of the inner loop computes the furthest point of its diagonal, with every access to `v` in range |
| `Myers.Round` | internal/applypatch/diff.go:118-135 | a round fills its diagonals of the array, or stops at the corner |
| `Myers.Search` | internal/applypatch/diff.go:101-139 | the forward loop records one snapshot per round and ends in the first round in which the corner is reached |
| `Myers.StepBack` | internal/applypatch/diff.go:150-175 | one step of the walk back finds the predecessor that the forward loop used, and prepends a run of equal lines and the one change by which the table's branch enters the diagonal |
| `Myers.Backtrack` | internal/applypatch/diff.go:145-190 | the walk back through the snapshots yields a valid script of as many changes as there were rounds, each by the table's branch |
| `Myers.MyersLineDiff` | internal/applypatch/diff.go:98-190 | for all line lists, the result is a valid script, no valid script has fewer insertions and deletions, and every edit is made late, which fixes the result |
| `Myers.ChosenLate` | internal/applypatch/diff.go:118-134 | edits by the table's branch come as late in the texts as any rival's, and insert where a rival that comes as late inserts |
| `Myers.LateScriptUnique` | internal/applypatch/diff.go:145-190 | of the cheapest valid scripts only one makes its edits late |
| `Myers.DeletionsFirst` | internal/applypatch/diff.go:150-175 | in such a script no deletion follows right after an insertion |
| `Hunks.AbsorbRun` | internal/applypatch/diff.go:228-265 | the four cases for a run of equal lines keep the groups cut so far maximal |
| `Hunks.GroupOps` | internal/applypatch/diff.go:196-270 | the groups are slices of the script, in order and apart, and hold exactly the operations within `context` of a change |
| `Hunks.HunkRanges` | internal/applypatch/diff.go:296-333 | the lengths count each side's lines, and the starts are 1-based, or 0 for an empty side |
| `Hunks.HunkMeaning` | internal/applypatch/diff.go:273-333 | a hunk's body and header name the very lines of both texts at its place, except for the start of an empty side |
| `Hunks.PatchRestores` | internal/applypatch/diff.go:196-333 | applying the hunks strictly gives the new lines if and only if every empty side lies at its text's start |
| `Hunks.ContextMakesFaithful` | internal/applypatch/diff.go:196-270 | with context, a hunk has an empty side only when that whole text is empty before it |
| `Hunks.HunkRoundTrip` | internal/applypatch/diff.go:196-333 | the hunks of any grouping turn the old lines into the new ones if and only if the headers are faithful, and always when `context >= 1` |
| `Hunks.NoContextBreaksHeaders` | internal/applypatch/diff.go:321-331 | a script without context whose header names the wrong place |
| `UnifiedDiff.SplitKeepingEnds` | internal/applypatch/diff.go:80-96 | the lines concatenate back to the text, and only the last may lack its newline |
| `UnifiedDiff.LinesUnique` | internal/applypatch/diff.go:77-96 | a text has only one such list of lines |
| `UnifiedDiff.NoGroupsIffEqual` | internal/applypatch/diff.go:64-68 | a minimal script has no groups if and only if the line lists are equal |
| `UnifiedDiff.WriteHunk` | internal/applypatch/diff.go:273-292 | the written text is the rendering of the hunk that the group describes |
| `DiffText.HeaderInjective` | internal/applypatch/diff.go:276-342 | a header, with lengths of 1 omitted, names its four numbers |
| `DiffText.DiffTextReadBack` | internal/applypatch/diff.go:273-353 | two lists of hunks are written as the same text if and only if they are the same up to padded newlines, so the hunks can be read off the text |
| `DiffText.SameDiffSameUpdate` | internal/applypatch/diff.go:60-75 | two updates of one text that show the same diff are the same if and only if both or neither end without a newline |
| `DiffText.SameDiffSameDerived` | internal/applypatch/replacements.go:39-46 | between updates that come from patch chunks, the diff text determines the update, whether or not the original ends in a newline |
| `DiffText.MissingNewlineHidden` | internal/applypatch/diff.go:344-353 | adding a line and adding it without its newline show the same diff |
| `UnifiedDiff.UnifiedDiff` | internal/applypatch/diff.go:60-75 | the diff is empty if and only if the texts are equal, and renders the hunks of the cheapest script with late edits, grouped by the context, which with context turn the old lines into the new ones |
| `DiffReading.DecimalWrites` | internal/applypatch/diff.go:337-342 | numbers are written in decimal digits, without leading zeros |
| `DiffReading.HeaderWritten` | internal/applypatch/diff.go:276-281 | a header names the old start and length and then the new ones |
| `DiffReading.DiffUnique` | internal/applypatch/diff.go:273-353 | a diff reads in only one way |
| `DiffReading.DiffPatches` | internal/applypatch/diff.go:60-75 | whoever reads the diff of an update finds hunks that patch the old lines, as they are shown, into the new ones |
| `SeekSequence.LaxerAgrees` | internal/applypatch/seek_sequence.go:11-15 | lines that agree on one level of strictness agree on the next |
| `SeekSequence.TransformMeans` | internal/applypatch/seek_sequence.go:82-148 | the transforms of two lines are equal if and only if the lines are alike: the same text, with whitespace after it or around it, and with dashes, quotes and spaces of any shape |
| `SeekSequence.SeekFinds` | internal/applypatch/seek_sequence.go:5-20 | the search finds the leftmost place at the strictest level of likeness that fits anywhere, and nothing only if no level fits |
| `Likeness.FoundUnique` | internal/applypatch/seek_sequence.go:5-20 | that fixes the answer |
| `SeekSequence.SeekFindsStrictestLeftmost` | internal/applypatch/seek_sequence.go:21-56 | the result is the leftmost match of the strictest level that matches anywhere in the range, and there is none if and only if no position matches after normalisation |
| `SeekSequence.SeekInBounds` | internal/applypatch/seek_sequence.go:21-56 | a found range lies inside the file, and after `start` unless the search is anchored at the end of the file |
| `SeekSequence.SeekAtEnd` | internal/applypatch/seek_sequence.go:29-32 | a pattern tied to the end of the file is found there or nowhere |
| `SeekSequence.NormalisePunctuation` | internal/applypatch/seek_sequence.go:112-137 | the builder loop computes the trimmed text with punctuation replaced |
| `SeekSequence.EqualLines` | internal/applypatch/seek_sequence.go:59-66 | lines of equal number are compared element by element |
| `SeekSequence.MatchWith` | internal/applypatch/seek_sequence.go:70-84 | one pass finds the first match under its transformation |
| `SeekSequence.SeekSequence` | internal/applypatch/seek_sequence.go:21-56 | the four passes, with the special cases for empty and long patterns, compute the specified search and find what must be found |
| `Replacements.ScheduleInBounds` | internal/applypatch/replacements.go:64-125 | for all chunks, every scheduled range ends within the file |
| `Replacements.StableSortSorts` | internal/applypatch/replacements.go:127-130 | sorting keeps all replacements, orders them by start, and keeps the order among equal starts |
| `Replacements.SortedDisjointIffCompatible` | internal/applypatch/replacements.go:127-132 | the sorted replacements are disjoint if and only if every two scheduled ones are compatible |
| `Replacements.AdmitsIffCompatible` | internal/applypatch/replacements.go:79-116 | a chunk keeps clear of all earlier ones if and only if its start, tied to the end of the file or not, passes the guard against the furthest end so far |
| `Replacements.OrderlyIsGuarded` | internal/applypatch/replacements.go:64-125 | without end-of-file chunks, and with additions only where no blank line ends the file, every chunk passes |
| `Replacements.EditAllIsSplice` | internal/applypatch/replacements.go:138-163 | on disjoint ranges, editing from the last to the first substitutes exactly the ranges and keeps every other line |
| `Replacements.ApplyReplacements` | internal/applypatch/replacements.go:138-163 | the element-by-element removals and insertions never leave the list and compute the edits from last to first |
| `Replacements.EditAll` | internal/applypatch/replacements.go:138-163 | overlapping or not, the lines before the first start stay as they were |
| `Replacements.ComputedReplacementsSafe` | internal/applypatch/replacements.go:60-133 | for every file and every chunk list, the result is sorted and every range lies inside the file, so the edits are defined |
| `Replacements.GuardedChunksSplice` | internal/applypatch/replacements.go:60-163 | for every file and every chunk list, the computed replacements are disjoint if and only if every chunk passes the guard, and then applying them is the splice |
| `Replacements.ScheduleChunk` | internal/applypatch/replacements.go:64-125 | one chunk: its old lines are searched for after its context line, an addition goes before a final blank line, the retry without a final blank pattern line, and both errors |
| `Replacements.ComputeReplacements` | internal/applypatch/replacements.go:60-133 | the result is the one outcome that meets all chunks in turn, sorted stably, or its first error |
| `Replacements.ScheduleMeets` | internal/applypatch/replacements.go:64-125 | the schedule places every chunk where its context and old lines are found, from the line index that the chunk before leaves |
| `ChunkPlacement.MeetAllUnique` | internal/applypatch/replacements.go:64-125 | for every file and chunk list there is only one such outcome |
| `Replacements.DeriveNewContents` | internal/applypatch/replacements.go:19-47 | the new text is the specified one for the file's lines |
| `Replacements.DerivedEnds` | internal/applypatch/replacements.go:39-46 | a text that comes out of chunks is empty or ends in a newline |
| `Replacements.FileRoundTrip` | internal/applypatch/replacements.go:28-46 | splitting and joining keep a text if and only if it is empty or ends in exactly one newline after another character, and what happens otherwise |
| `Replacements.EndOfFileChunkMayOverlap` | internal/applypatch/seek_sequence.go:29-32 | chunks whose ranges overlap, and the change that is lost |
| `Replacements.AdditionBeforeBlankMayBeLost` | internal/applypatch/replacements.go:79-91 | an addition whose line lands in a replaced range, and what becomes of it |
| `FileSystem.EveryAllowedOutcomeHappens` | internal/applypatch/filesystem.go:20-40 | the modelled filesystem can show every outcome that the contract allows |
| `PatchDelta.AddIsExact` | internal/applypatch/apply.go:73-90 | an exact add is undone and redone by its record, over a missing, an existing and an unwritable target |
| `PatchDelta.DeleteIsExact` | internal/applypatch/apply.go:92-115 | the same for a delete, and for a removal that fails |
| `PatchDelta.OverwriteIsExact` | internal/applypatch/apply.go:161-176 | the same for an update in place |
| `PatchDelta.MoveIsExact` | internal/applypatch/apply.go:123-160 | the same for a move, halfway and complete, onto a new file, an existing one, and, if it completes, the source itself |
| `PatchDelta.OtherErrorsAreFinal` | internal/applypatch/apply.go:251-263 | a write that fails for another reason than a missing directory is not tried again |
| `PatchDelta.HunkIsExact` | internal/applypatch/apply.go:68-178 | every hunk: the flag is never set again, and while it is set the record undoes and redoes the hunk |
| `PatchDelta.HunkRedoIff` | internal/applypatch/apply.go:123-160 | the same condition for one hunk |
| `PatchDelta.ExactDeltaUndoesAndRedoes` | internal/applypatch/apply_types.go:38-49 | for all hunk lists and all filesystems, an exact delta leads back to the initial files, and forward to the final ones if and only if the run did not stop at a hunk that rewrites a file onto itself, with the file put back |
| `PatchEffect.SelfMoveCounterexample` | internal/applypatch/apply.go:143-147 | every hunk that rewrites a file onto itself has a filesystem on which its exact record cannot be redone |
| `PatchEffect.RedoIffNotRewrittenOntoItself` | internal/applypatch/apply.go:123-160 | a hunk's exact record can be redone on every filesystem if and only if it does not rewrite a file onto itself |
| `PatchEffect.RedoIffNeverRewrites` | internal/applypatch/apply_types.go:38-49 | every exact record of a hunk list can be redone on every filesystem if and only if no hunk, applied to the files that those before it leave, rewrites a file onto itself |
| `PatchEffect.RewriteDeceives` | internal/applypatch/apply.go:143-147 | whenever such a hunk exists, there is a filesystem on which the run reaches it and its exact record cannot be redone |
| `PatchEffect.SuccessfulRunEffect` | internal/applypatch/apply.go:68-180 | a successful run with an exact record leaves the files that its hunks, applied in turn, leave |
| `PatchEffect.HunkSucceeds` | internal/applypatch/apply.go:73-176 | every hunk that can succeed and be recorded exactly does so on some filesystem, with that effect |
| `PatchEffect.MoveEffect` | internal/applypatch/apply.go:123-160 | after a successful exact run that ends with a move, nothing is at its source, the derived text is at its destination if and only if that is another path, and the other files are those that the earlier hunks leave |
| `PatchEffect.DeletionRefused` | internal/applypatch/apply.go:101-105 | a deletion that is refused keeps the flag if and only if the file still holds its text |
| `PatchEffect.MoveRefused` | internal/applypatch/apply.go:143-147 | so does a move to another path, and what it wrote stays on record |
| `OrdinaryFiles.HunkAgrees` | internal/applypatch/apply.go:68-178 | on an ordinary filesystem the files, the record, the flag and the error after a hunk are fixed, and the filesystem stays ordinary |
| `OrdinaryFiles.OrdinaryRun` | internal/applypatch/apply.go:61-180 | so is the outcome of every hunk list |
| `OrdinaryFiles.AddedInNewDirectory` | internal/applypatch/apply.go:246-263 | a file added under missing directories is there afterwards, with its directories and an exact record |
| `ApplyHunks.NoteExistingPathDeltaSupport` | internal/applypatch/apply.go:228-241 | the flag falls for what is not a plain file and for a failed stat |
| `ApplyHunks.ReadOptionalFileTextForDelta` | internal/applypatch/apply.go:210-222 | the text, a missing file, or a lowered flag |
| `ApplyHunks.WriteFileWithMissingParentRetry` | internal/applypatch/apply.go:246-263 | a write, and after a missing parent a second one |
| `ApplyHunks.RemoveFailureWasSideEffectFree` | internal/applypatch/apply.go:198-204 | whether the file still holds the expected text |
| `ApplyHunks.ApplyAdd` | internal/applypatch/apply.go:73-90 | the store, the recorded changes, the flag and the error after an add |
| `ApplyHunks.ApplyDelete` | internal/applypatch/apply.go:92-115 | the same after a delete |
| `ApplyHunks.ApplyMove` | internal/applypatch/apply.go:123-160 | the same after a move, whose record replaces that of its first half |
| `ApplyHunks.ApplyUpdate` | internal/applypatch/apply.go:117-176 | the same after an update |
| `ApplyHunks.ApplyHunksToFiles` | internal/applypatch/apply.go:61-180 | the loop computes the specified run; its exact delta undoes it, redoes it if and only if it did not stop with a self-move put back, and after a success the files are those that the hunks leave; on an ordinary filesystem the outcome is fixed; the summary lists the paths by kind |
| `ApplyHunks.AffectedMeans` | internal/applypatch/apply.go:66-180 | the summary lists the added, modified and deleted paths in order, a moved file under its destination |
| `LineText.JoinSplit` | internal/applypatch/replacements.go:28-46 | joining the pieces between newlines gives the text back |
| `PatchParser.ParsePatchText` | internal/applypatch/parser.go:44-81 | the loops over the remaining lines compute the specified result of positions, in both modes |
| `PatchParser.ParseOneHunk` | internal/applypatch/parser.go:184-271 | a hunk read from the remaining lines is the one at their position, and the consumed count is the distance to its end |
| `PatchParser.ParseUpdateFileChunk` | internal/applypatch/parser.go:276-355 | the same for a chunk, with its error lines |
| `PatchParser.ParseEnvironmentIdPreamble` | internal/applypatch/parser.go:105-119 | the id, the rest of the lines and the number of the first |
| `PatchParser.ReadsHunk` | internal/applypatch/parser.go:184-271 | a hunk that is read ends after its start and within the lines |
| `PatchParser.UpdatesNonEmpty` | internal/applypatch/parser.go:225-261 | an update has chunks, and every chunk removes or adds or keeps a line |
| `PatchParser.HunksPartitionLines` | internal/applypatch/parser.go:64-73 | the hunks of a patch take up all its hunk lines, one after another, each at least one line |
| `PatchParser.PatchErrorLocated` | internal/applypatch/parser.go:184-355 | where the line of every error points, exactly or one too late |
| `PatchRoundTrip.PrintedPatchReadBack` | internal/applypatch/doc.go:10-33 | any text of a spelling, with its change lines in any order, a first chunk with or without its mark, carriage returns at line ends and whitespace around it, is read back as the patch that it says, in both modes, if and only if every update has a chunk, every chunk a change line, and no unmarked first chunk a first line that looks blank |
| `PatchRoundTrip.CanonicalPatchReadBack` | internal/applypatch/doc.go:10-33 | every printable patch has a spelling whose texts are read back as that patch, with its id |
| `PatchRoundTrip.WrappedPatchReadBack` | internal/applypatch/parser.go:142-159 | inside a heredoc it is read back in the lenient mode under the same condition, and always refused in the strict one |
| `PatchRoundTrip.OnlyHeredocsUnwrapped` | internal/applypatch/parser.go:142-159 | any other line before the patch, or one after it that does not end in `EOF`, is refused in both modes |
| `PatchGrammar.AcceptedIsSpelled` | internal/applypatch/parser.go:44-81 | every text that parses follows the grammar, up to whitespace around headers, blank lines around chunks and added files without lines, and is read as what its lines say |
| `PatchGrammar.ChunksAccepted` | internal/applypatch/parser.go:225-248 | the chunks of an update are its lines: blank lines, and chunks of which only the first may lack its mark |
| `PatchRoundTrip.UnreadableLost` | internal/applypatch/parser.go:225-255 | hunks of which one is not readable are never read as what they say, wherever it stands |
| `OldLineCount.PartitionCounts` | internal/applypatch/parser.go:225-255 | the hunks that are read have no more old lines than the lines they take say |
| `OldLineCount.HunksWeigh` | internal/applypatch/doc.go:10-33 | the text of some hunks says as many old lines as the hunks have |
| `PatchSeen.SeenPatchRead` | internal/applypatch/parser.go:225-234 | what is read of any spelling is what is left of it without the lines that look blank at the start of an update, if something is left of every chunk |
| `PatchSeen.BlankStartBecomesAddition` | internal/applypatch/parser.go:227-231 | a replacement whose unmarked chunk starts with a line of spaces is read as an addition |
| `PatchSeen.RenameOnlyRefused` | internal/applypatch/parser.go:249-254 | an update that only renames is an error |
| `PatchSeen.UnexpectedLineOneLate` | internal/applypatch/parser.go:339-348 | an unexpected line on line 3 that is reported as line 4 |
| `PatchImage.ParsedIsPrintable` | internal/applypatch/parser.go:44-81 | whatever parses, in either mode, has a well-formed id and printable hunks |
| `PatchImage.ParserImage` | internal/applypatch/parser.go:44-81 | some text is read as a patch if and only if the patch is printable |
| `PatchImage.CanonicalTextSaysTheSame` | internal/applypatch/parser.go:44-81 | every text that parses is read as the same patch as its canonical text, in both modes |
| `PatchText.CanonicalSays` | internal/applypatch/doc.go:15-26 | the canonical spelling of a printable patch is well-formed, readable and says that patch |
| `PatchPrinter.ReadsChanges` | internal/applypatch/parser.go:312-352 | change lines in any order add to the old and the new lines of the chunk in that order |
| `AgentGraph.ListingUnique` | internal/agentgraph/inmemory.go:89-90 | there is one listing by depth and id, so the order of map iteration cannot show |
| `AgentGraph.RingStep` | internal/agentgraph/inmemory.go:112-128 | a level of the walk is the threads at the next shortest depth |
| `AgentGraph.EmptyRingEnds` | internal/agentgraph/inmemory.go:112-128 | when a level is empty, everything reachable has been seen |
| `AgentGraph.ChildrenArePrefix` | internal/agentgraph/inmemory.go:65-130 | the listing of children is the first part of the listing of descendants |
| `AgentGraph.GroupByParent` | internal/agentgraph/inmemory.go:99-107 | the matching edges are grouped completely and without repetition |
| `AgentGraph.WalkLevel` | internal/agentgraph/inmemory.go:112-128 | one level visits each new thread once and appends it in order |
| `AgentGraph.InMemoryAgentGraphStore.UpsertThreadSpawnEdge` | internal/agentgraph/inmemory.go:38-48 | a child keeps only its last parent |
| `AgentGraph.InMemoryAgentGraphStore.SetThreadSpawnEdgeStatus` | internal/agentgraph/inmemory.go:51-63 | one status changes and no edge is created or moved |
| `AgentGraph.InMemoryAgentGraphStore.ListThreadSpawnChildren` | internal/agentgraph/inmemory.go:65-87 | exactly the matching children, ascending by id |
| `AgentGraph.InMemoryAgentGraphStore.ListThreadSpawnDescendants` | internal/agentgraph/inmemory.go:89-130 | on every edge map it ends with every reachable thread exactly once, by shortest depth and id |
| `AgentChains.LeadsIffConnects` | internal/agentgraph/agentgraph.go:72-78 | the threads of a level are the ends of the chains of that many edges of the wanted status |
| `AgentChains.ChildrenAreLinked` | internal/agentgraph/agentgraph.go:64-69 | the children listed are the threads with an edge of the wanted status from the parent |
| `AgentChains.ListingListsChains` | internal/agentgraph/inmemory.go:89-130 | a listing holds exactly the threads that a chain leads to, by shortest chain and then by id |
| `AgentGraph.RowsAreLevels` | internal/agentgraph/local.go:154-178 | the query derives a row for a thread and depth once if that many edges lead there, and else not |
| `AgentGraph.TwoLevelsMakeCycle` | internal/agentgraph/local.go:154-178 | a thread at two depths puts the root below itself |
| `AgentGraph.NoAnswerOnCycle` | internal/agentgraph/local.go:164-177 | below a root that is its own descendant the query has no finite answer |
| `AgentGraph.AnswerIsListing` | internal/agentgraph/local.go:154-181 | any answer, read as ids, is the breadth-first listing |
| `AgentGraph.StoresAgree` | internal/agentgraph/local.go:145-184 | the query has a finite answer if and only if the root is not its own descendant, and then it is the in-memory listing |
| `Streams.Outbox.Send` | internal/api/chat_completions.go:175-182 | a send succeeds until the consumer goes away |
| `ChatStream.AssembledAppend` | internal/api/chat_completions.go:325-342 | a further fragment extends its own call and no other |
| `ChatStream.IndicesMeaning` | internal/api/chat_completions.go:212-216 | the order of the calls is the distinct indices, ascending |
| `ChatStream.ChatAggregator.Accumulate` | internal/api/chat_completions.go:286-342 | a choice sends its skeletons and deltas and updates every accumulator |
| `ChatStream.ChatAggregator.Finalize` | internal/api/chat_completions.go:200-243 | the flush sends the message, the calls in order, and the completion |
| `ChatStream.ChatAggregator.Close` | internal/api/chat_completions.go:246-268 | which end flushes and which error it reports otherwise |
| `ChatStream.ChatAggregator.Aggregate` | internal/api/chat_completions.go:172-352 | the consumer takes the specified run, or after a cancellation a prefix of it |
| `ChatRuns.RunShape` | internal/api/chat_completions.go:184-352 | every run starts with `Created`, ends with one terminal result, and has neither in between |
| `ChatRuns.RunCompletes` | internal/api/chat_completions.go:246-352 | a run completes if and only if a done marker ends it, or a close after a finish reason, and without completion no item is done |
| `ChatRuns.TextConcatenates` | internal/api/chat_completions.go:200-323 | the text deltas are the contents heard, and concatenate to the one finished message; without text there is none |
| `ChatRuns.SkeletonsComeFirst` | internal/api/chat_completions.go:289-323 | the message and the reasoning are added once, right before their first delta, and not at all without one |
| `ChatRuns.ToolCallsAssembled` | internal/api/chat_completions.go:212-243 | a completed run has one added and done pair per distinct index, ascending, with the call's fragments in arrival order, its last id or its position, and the turn ends if and only if there is no call |
| `ChatRuns.InterleavingIrrelevant` | internal/api/chat_completions.go:325-342 | how the fragments of different calls interleave does not change the finished calls |
| `ChatPayload.RunSaysPayloads` | internal/api/chat_completions.go:172-352 | the run is `Created`, the deltas that the payloads say with each skeleton before its first, and then the message, the calls and the completion that they say, or the error that the end of the stream says |
| `ResponsesStream.Emit` | internal/api/sse_responses.go:497-523 | an event reports a changed model, its recommendations and the event itself, in this order |
| `ResponsesStream.Close` | internal/api/sse_responses.go:463-489 | the error that a close, a timeout and another failure report |
| `ResponsesStream.ProcessSse` | internal/api/sse_responses.go:447-525 | the consumer takes the specified run, or after a cancellation a prefix of it |
| `ResponsesStream.RunEndsOnce` | internal/api/sse_responses.go:454-524 | every run has one terminal result, its last; a completion wins over earlier failures, and a close reports the latest of them or the closed stream |
| `ResponsesStream.DeferredIsLatest` | internal/api/sse_responses.go:512-514 | the remembered failure is that of the latest failure event |
| `ResponsesStream.RunFaithful` | internal/api/sse_responses.go:499-523 | every event and recommendation heard is forwarded once and in order, and successive server models differ |
| `ResponsesReference.RunIsSaid` | internal/api/sse_responses.go:447-525 | every run is what the events say one by one, given the last model and the last failure |
| `Correlation.Client.NewId` | internal/appserverclient/remote.go:57 | a new id is one more than the last |
| `Correlation.Client.Register` | internal/appserverclient/remote.go:64-70 | a channel is registered under its id, unless the client is closed |
| `Correlation.Client.Take` | internal/appserverclient/remote.go:205-215 | a channel leaves the registry with the one caller that finds it |
| `Correlation.Client.Abandon` | internal/appserverclient/remote.go:77-92 | an id leaves the registry and nothing else changes |
| `Correlation.Client.Close` | internal/appserverclient/in_process.go:137-146 | the first shutdown takes all channels and leaves the registry empty and closed |
| `Correlation.StepKeeps` | internal/appserverclient/in_process.go:73-170 | every atomic step keeps the invariant: a channel has one prospective sender at most, and while its request waits, one exactly or a reply |
| `Correlation.RunKeeps` | internal/appserverclient/remote.go:56-138 | so does every interleaving |
| `Correlation.SendsNeverBlock` | internal/appserverclient/remote.go:205-215 | in every run a channel takes at most one send, so a delivery never blocks and a shutdown's error is never dropped |
| `Correlation.OnlyOwnReplies` | internal/appserverclient/routing_sink.go:44-66 | a request returns only a response that arrived under its own id, or the error of a shutdown that happened |
| `Correlation.AnswerReaches` | internal/appserverclient/remote.go:185-215 | in every run, when the server answers a registered request, with a result or an error, the request returns the answer |
| `Correlation.OthersIgnored` | internal/appserverclient/remote.go:185-204 | notifications and answers under an id that is no number deliver nothing |
| `Correlation.FirstAnswerFinal` | internal/appserverclient/remote.go:205-215 | after the first reply, no response, duplicate or shutdown sends to the channel again |
| `Correlation.AnsweredUnregistered` | internal/appserverclient/remote.go:205-215 | in every run, the id of an answered request is no longer registered, so a duplicate response finds nothing |
| `Correlation.DuplicateIgnored` | internal/appserverclient/in_process.go:160-170 | in every run, a further response to a request that has an answer finds nothing and changes nothing |
| `Correlation.NothingRegisteredAfterShutdown` | internal/appserverclient/in_process.go:81-88 | after a shutdown the registry stays empty and no request becomes registered |
| `Correlation.ShutdownAnswersAll` | internal/appserverclient/remote.go:121-138 | when a shutdown has finished and no delivery is under way, every waiting request can return |
| `Correlation.NoneForgottenInRuns` | internal/appserverclient/remote.go:82-95 | a waiting request has its reply, or somebody will send it |
| `Correlation.FinishedRegisteredIff` | internal/appserverclient/remote.go:84-94 | in every run, a finished request is still registered if and only if it returned because reading had ended, the client is not closed, and its response was neither sent nor taken by a delivery |
| `Correlation.ReadDoneMayLeaveRegistered` | internal/appserverclient/remote.go:92-94 | two runs in which a request returns because reading has ended: one leaves its id registered, in the other a delivery has taken it |

## Left out

- Diff as text: a missing final newline is padded in the written diff, so the text determines the hunks only up to it; the hunks are applied as lines.
- Negative diff context: the context is a natural number.
- Filesystem: the operating system's filesystem is the contract of the interface, with plain files, directories and symbolic links by path; a failed write or remove may leave anything at its target, and nothing elsewhere. No parent directory is a symbolic link.
- Path resolution: a given function from patch paths to absolute paths.
- Summaries, error texts and the wrappers `ApplyPatch`, `ApplyHunks` and `ParsePatch`: printing and plumbing.
- File texts and patches are sequences of code points; invalid UTF-8 is not modelled.
- `Hunks.NoContextBreaksHeaders`: one concrete script; the condition for all scripts is in `Hunks.HunkRoundTrip`.
- `PatchRoundTrip.PrintedPatchReadBack`: whitespace around header lines and blank lines between chunks, which the parser also accepts, are not among the spellings.
- SQLite: connections, rows and statuses as text; a query's answer is the multiset of rows that `UNION ALL` derives, in the requested order.
- JSON: the chat and Responses payload decoders are given functions; `ProcessResponsesEvent` and its error classification are part of the given decoder.
- Byte-level parsing of server-sent events, HTTP headers and the events that come before the Responses loop: network code.
- Cancellation of a stream: it takes effect at a send; a reader that is cancelled first is a shorter list of events.
- `Streams.Outbox.Send`: the buffer's size is not modelled, because a full buffer only delays a send.
- Event channels of the clients, the engine behind the in-process client, and the transports.
- Locks and memory: the atomic sections are the steps of the state machine; the methods of `Correlation.Client` are these sections on the fields.
- The other packages of the repository: clients of REST services, cryptographic identity, analytics and command lines.
