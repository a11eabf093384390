/**
 Which spellings of a patch the parser reads back (internal/applypatch/parser.go):
 exactly those whose updates all have a chunk and do not start with a chunk that
 has no mark and a first line that looks blank. A reading that loses lines says
 fewer old lines than the text has.
 */
module PatchRoundTrip {

  import opened PatchTypes
  import opened LineText
  import opened Whitespace
  import opened PatchParser
  import opened PatchText
  import opened ChangeLines
  import opened PatchPrinter
  import opened OldLineCount

  // ----- A first line that looks blank is lost

  /** The update starts with a chunk without its mark whose first line looks blank. */
  predicate StartsBlank(cs: seq<ChunkText>) {
    cs != [] && cs[0].mark == NoMark && cs[0].body != [] && IsBlank(Spelling(cs[0].body[0]))
  }

  /** A change line that looks blank says an old line. */
  lemma BlankSaysOld(line: string)
    requires IsBlank(line) && BodyLineOf(line).Change?
    ensures SaysOld(line)
  {
    TrimSpaceEmpty(line);
    assert line != "" ==> IsSpace(line[0]);
  }

  /** A skipped first line is missing from what is read. */
  lemma SkippedUpdateCounts(read: ChunkReader, lines: Lines, at: nat, path: string, movePath: Option<string>)
    requires at < |lines| && Advances(read, |lines|) && TakesCounted(read, lines) && MoveLine(lines, at + 1) == movePath
    requires ChunkStart(at, movePath) < |lines| && read(ChunkStart(at, movePath), true) == Skip
    requires SaysOld(lines[ChunkStart(at, movePath)])
    ensures var r := ParsedUpdate(read, lines, at, path);
            r.Ok? ==> HunkTotal(r.value.0) < Count(lines, at, r.value.1)
  {
    var start := ChunkStart(at, movePath);
    var r := ParsedUpdate(read, lines, at, path);
    if r.Ok? {
      ChunksCount(read, lines, start + 1, []);
      CountSplit(lines, at, start, r.value.1);
      CountFirst(lines, start, r.value.1);
    }
  }

  lemma BlankStartFound(lines: Lines, at: nat, path: string, movePath: Option<string>, cs: seq<ChunkText>)
    requires StartsBlank(cs) && Spells(lines, at, PrintHunk(UpdateText(path, movePath, cs)))
    ensures at < |lines| && lines[at] == UPDATE_FILE + path && MoveLine(lines, at + 1) == movePath
    ensures var start := ChunkStart(at, movePath); start < |lines| && IsBlank(lines[start]) && SaysOld(lines[start])
  {
    var parts := ChunkParts(cs);
    var line := Spelling(cs[0].body[0]);
    LineClassified(cs[0].body[0]);
    BlankSaysOld(line);
    assert parts[0] == PrintChunk(cs[0]) && parts[0][0] == BodyText(cs[0].body)[0];
    UpdateFound(lines, at, path, movePath, parts, PrintHunk(UpdateText(path, movePath, cs)));
    assert lines[ChunkStart(at, movePath) + 0] == Flatten(parts)[0] == parts[0][0];
  }

  lemma BlankStartLost(lines: Lines, at: nat, path: string, movePath: Option<string>, cs: seq<ChunkText>)
    requires HeaderPath(path) && StartsBlank(cs) && Spells(lines, at, PrintHunk(UpdateText(path, movePath, cs)))
    ensures var r := ReadsHunk(lines)(at); r.Ok? ==> HunkTotal(r.value.0) < Count(lines, at, r.value.1)
  {
    BlankStartFound(lines, at, path, movePath, cs);
    TakesAreCounted(lines);
    SkippedUpdateCounts(ReadsChunk(lines), lines, at, path, movePath);
    UpdateDispatch(ReadsChunk(lines), lines, at, path);
  }

  /** What cannot be read back: no chunk, a chunk without lines, or a start that looks blank. */
  lemma UnreadableCases(cs: seq<ChunkText>)
    requires WellFormedChunks(cs) && !ReadableChunks(cs) && cs != [] && !StartsBlank(cs)
    ensures exists c :: c in ChunksOf(cs) && !NonEmpty(c)
  {
    var k: nat :| k < |cs| && !ReadableChunk(cs[k]);
    assert WellFormedChunk(cs[k], k == 0);
    assert cs[k].body == [];
    EmptyBody(cs[k]);
    assert ChunksOf(cs)[k] == ChunkOf(cs[k]);
  }

  lemma EmptyBody(c: ChunkText)
    requires c.body == []
    ensures !NonEmpty(ChunkOf(c))
  {
    assert |c.body| == 0;
  }

  lemma PartitionLoses(read: HunkReader, lines: Lines, ends: seq<nat>, hunks: seq<Hunk>, i: nat)
    requires i <= |lines| && HunksCounted(read, lines) && hunks != [] && Partitions(read, ends, hunks, |lines|, i)
    requires HunkTotal(hunks[0]) < Count(lines, i, ends[0])
    ensures Total(hunks) < Count(lines, i, |lines|)
  {
    PartitionCounts(read, lines, ends[1..], hunks[1..], ends[0]);
    CountSplit(lines, i, ends[0], |lines|);
  }

  /** Hunks of which the first has fewer old lines than it takes do not have all old lines of the text. */
  lemma LosingPartition(read: HunkReader, lines: Lines, i: nat, said: seq<Hunk>, ends: seq<nat>)
    requires HunksCounted(read, lines) && said != [] && i < |lines| && Total(said) == Count(lines, i, |lines|)
    requires read(i).Ok? ==> var (h, end) := read(i).value; i < end <= |lines| && HunkTotal(h) < Count(lines, i, end)
    ensures !Partitions(read, ends, said, |lines|, i)
  {
    if Partitions(read, ends, said, |lines|, i) {
      PartitionLoses(read, lines, ends, said, i);
    }
  }

  lemma FirstLineLost(lines: Lines, i: nat, hs: seq<HunkText>)
    requires hs != [] && WellFormedHunks(hs) && hs[0].UpdateText? && StartsBlank(hs[0].chunks) && Spells(lines, i, PrintHunks(hs))
    ensures i < |lines|
    ensures var r := ReadsHunk(lines)(i); r.Ok? ==> i < r.value.1 <= |lines| && HunkTotal(r.value.0) < Count(lines, i, r.value.1)
  {
    var h := hs[0];
    PrintHunksCons(hs);
    SpellsConcat(lines, i, PrintHunk(h), PrintHunks(hs[1..]));
    BlankStartFound(lines, i, h.path, h.movePath, h.chunks);
    BlankStartLost(lines, i, h.path, h.movePath, h.chunks);
  }

  lemma BlankStartUnread(lines: Lines, i: nat, hs: seq<HunkText>, ends: seq<nat>)
    requires hs != [] && WellFormedHunks(hs) && hs[0].UpdateText? && StartsBlank(hs[0].chunks)
    requires Spells(lines, i, PrintHunks(hs)) && i + |PrintHunks(hs)| == |lines|
    ensures !Partitions(ReadsHunk(lines), ends, HunksOf(hs), |lines|, i)
  {
    FirstLineLost(lines, i, hs);
    ReadHunksCounted(lines);
    PrintedCount(lines, i, hs);
    LosingPartition(ReadsHunk(lines), lines, i, HunksOf(hs), ends);
  }

  lemma EmptyUnread(lines: Lines, i: nat, hs: seq<HunkText>, ends: seq<nat>)
    requires hs != [] && hs[0].UpdateText? && WellFormedChunks(hs[0].chunks)
    requires !ReadableChunks(hs[0].chunks) && !StartsBlank(hs[0].chunks)
    ensures !Partitions(ReadsHunk(lines), ends, HunksOf(hs), |lines|, i)
  {
    UpdatesNonEmpty(lines, i);
    if hs[0].chunks != [] {
      UnreadableCases(hs[0].chunks);
    }
  }

  /** If the first hunk cannot be read back, then the hunks are not. */
  lemma FirstUnreadable(lines: Lines, i: nat, hs: seq<HunkText>, ends: seq<nat>)
    requires hs != [] && WellFormedHunks(hs) && !ReadableHunk(hs[0])
    requires Spells(lines, i, PrintHunks(hs)) && i + |PrintHunks(hs)| == |lines|
    ensures !Partitions(ReadsHunk(lines), ends, HunksOf(hs), |lines|, i)
  {
    if StartsBlank(hs[0].chunks) {
      BlankStartUnread(lines, i, hs, ends);
    } else {
      EmptyUnread(lines, i, hs, ends);
    }
  }

  /** What comes after the hunks so far is what the hunks from here on say. */
  lemma SameRest(done: seq<Hunk>, read: seq<Hunk>, said: seq<Hunk>)
    requires done + read == done + said
    ensures read == said
  {
    assert read == (done + read)[|done|..];
    assert said == (done + said)[|done|..];
  }

  /** A part that reads as a hunk is read, and what follows it is found after it. */
  lemma PartRead(read: HunkReader, lines: Lines, i: nat, part: Lines, h: Hunk, rest: Lines)
    requires ReadsAsHunk(read, lines, part, h) && Spells(lines, i, part + rest) && HunkBoundary(lines, i + |part|)
    ensures i < i + |part| <= |lines| && read(i) == Ok((h, i + |part|)) && Spells(lines, i + |part|, rest)
  {
    SpellsConcat(lines, i, part, rest);
  }

  /** The first hunk is read as it is said, and the lines of the others follow it. */
  lemma FirstHunkRead(read: HunkReader, lines: Lines, i: nat, hs: seq<HunkText>) returns (end: nat)
    requires hs != [] && WellFormedHunks(hs) && ReadsAsHunk(read, lines, PrintHunk(hs[0]), HunkOf(hs[0]))
    requires Spells(lines, i, PrintHunks(hs)) && i + |PrintHunks(hs)| == |lines|
    ensures i < end <= |lines| && read(i) == Ok((HunkOf(hs[0]), end))
    ensures Spells(lines, end, PrintHunks(hs[1..])) && end + |PrintHunks(hs[1..])| == |lines|
  {
    var part, rest := PrintHunk(hs[0]), PrintHunks(hs[1..]);
    end := i + |part|;
    PrintHunksCons(hs);
    SpellsConcat(lines, i, part, rest);
    NextHunkStarts(lines, end, hs[1..]);
    PartRead(read, lines, i, part, HunkOf(hs[0]), rest);
  }

  /** If the hunks after one that is taken are lost, then so are the hunks from it on. */
  lemma LostFurtherOn(read: HunkReader, n: nat, i: nat, done: seq<Hunk>, h: Hunk, end: nat, rest: seq<Hunk>)
    requires i < n && HunksAdvance(read, n) && read(i) == Ok((h, end))
    requires end <= n && ParsedHunks(read, n, end, done + [h]) != Ok(done + [h] + rest)
    ensures ParsedHunks(read, n, i, done) != Ok(done + ([h] + rest))
  {
    HunkTaken(read, n, i, done, h, end);
    assert done + [h] + rest == done + ([h] + rest);
  }

  lemma FirstLost(lines: Lines, i: nat, hs: seq<HunkText>, done: seq<Hunk>)
    requires hs != [] && WellFormedHunks(hs) && !ReadableHunk(hs[0])
    requires Spells(lines, i, PrintHunks(hs)) && i + |PrintHunks(hs)| == |lines|
    ensures ParsedHunks(ReadsHunk(lines), |lines|, i, done) != Ok(done + HunksOf(hs))
  {
    var said := HunksOf(hs);
    if ParsedHunks(ReadsHunk(lines), |lines|, i, done) == Ok(done + said) {
      var ends, hunks := HunksPartition(ReadsHunk(lines), |lines|, i, done);
      SameRest(done, hunks, said);
      FirstUnreadable(lines, i, hs, ends);
    }
  }

  lemma {:induction false} UnreadableLost(lines: Lines, i: nat, hs: seq<HunkText>, done: seq<Hunk>)
    requires WellFormedHunks(hs) && !AllReadable(hs)
    requires Spells(lines, i, PrintHunks(hs)) && i + |PrintHunks(hs)| == |lines|
    ensures ParsedHunks(ReadsHunk(lines), |lines|, i, done) != Ok(done + HunksOf(hs))
    decreases |hs|
  {
    if ReadableHunk(hs[0]) {
      var h, rest := HunkOf(hs[0]), hs[1..];
      PrintedHunkReads(lines, hs[0]);
      var end := FirstHunkRead(ReadsHunk(lines), lines, i, hs);
      UnreadableLost(lines, end, rest, done + [h]);
      LostFurtherOn(ReadsHunk(lines), |lines|, i, done, h, end, HunksOf(rest));
      PrintHunksCons(hs);
    } else {
      FirstLost(lines, i, hs, done);
    }
  }

  /** After a printed hunk the lines end, or the next one starts. */
  lemma NextHunkStarts(lines: Lines, end: nat, rest: seq<HunkText>)
    requires WellFormedHunks(rest) && Spells(lines, end, PrintHunks(rest)) && end + |PrintHunks(rest)| == |lines|
    ensures HunkBoundary(lines, end)
  {
    if rest != [] {
      PrintHunksCons(rest);
      HeaderStarts(rest[0]);
      assert lines[end + 0] == PrintHunks(rest)[0] == PrintHunk(rest[0])[0];
    }
  }

  lemma HeaderStarts(h: HunkText)
    requires WellFormedHunk(h)
    ensures PrintHunk(h) != [] && StartsHunk(PrintHunk(h)[0])
  {
    match h
    case AddText(path, _) => AddHeaderRead(path);
    case DeleteText(path) => DeleteHeaderRead(path);
    case UpdateText(path, _, _) => UpdateHeaderRead(path);
  }

  /** The hunk lines are read back exactly if every hunk is readable. */
  lemma HunkLinesReadBackIff(lines: Lines, start: nat, hs: seq<HunkText>)
    requires WellFormedHunks(hs) && Spells(lines, start, PrintHunks(hs)) && start + |PrintHunks(hs)| == |lines|
    ensures ParsedHunks(ReadsHunk(lines), |lines|, start, []) == Ok(HunksOf(hs)) <==> AllReadable(hs)
  {
    if AllReadable(hs) {
      HunkLinesReadBack(lines, start, hs);
    } else {
      UnreadableLost(lines, start, hs, []);
      assert [] + HunksOf(hs) == HunksOf(hs);
    }
  }

  // ----- The theorems

  lemma LinesReadBack(id: Option<string>, hunks: seq<HunkText>)
    requires WellFormedId(id) && WellFormedHunks(hunks)
    ensures |PrintLines(id, hunks)| >= 2
    ensures ParsedLines(PrintLines(id, hunks)) == Ok(ParseResult(Print(id, hunks), HunksOf(hunks), id)) <==> AllReadable(hunks)
  {
    LinesRead(id, hunks);
    HunkLinesReadBackIff(PrintBody(id, hunks), HunkStart(id), hunks);
  }

  /**
   A text of a spelling, with any whitespace around it, is read back in either
   mode exactly if every update has a chunk, every chunk has a change line, and
   no update starts with a chunk that has neither its mark nor a first line that
   can be seen.
   */
  lemma PrintedPatchReadBack(id: Option<string>, hunks: seq<HunkText>, raw: Lines, left: string, right: string, mode: ParseMode)
    requires WellFormedId(id) && WellFormedHunks(hunks) && Written(raw, PrintLines(id, hunks))
    requires AllSpace(left) && AllSpace(right)
    ensures ParsedPatch(left + Join(raw) + right, mode) == Ok(ParseResult(Print(id, hunks), HunksOf(hunks), id))
            <==> AllReadable(hunks)
  {
    PrintedLinesRead(id, hunks, raw, left, right, mode);
    LinesReadBack(id, hunks);
  }

  /** Every printable patch has a canonical spelling, and its texts are read back. */
  lemma CanonicalPatchReadBack(id: Option<string>, hunks: seq<Hunk>, raw: Lines, left: string, right: string, mode: ParseMode)
    requires WellFormedId(id) && PrintableHunks(hunks)
    requires Written(raw, PrintLines(id, Canonical(hunks))) && AllSpace(left) && AllSpace(right)
    ensures ParsedPatch(left + Join(raw) + right, mode) == Ok(ParseResult(Print(id, Canonical(hunks)), hunks, id))
  {
    CanonicalSays(hunks);
    PrintedPatchReadBack(id, Canonical(hunks), raw, left, right, mode);
  }

  /** What opens a heredoc. */
  const HEREDOCS := {"<<EOF", "<<'EOF'", "<<\"EOF\""}

  /** A heredoc around such a text is taken off in lenient mode and refused in strict mode. */
  lemma WrappedPatchReadBack(id: Option<string>, hunks: seq<HunkText>, open: string, close: string, raw: Lines, left: string, right: string)
    requires WellFormedId(id) && WellFormedHunks(hunks) && AllSpace(left) && AllSpace(right)
    requires open in HEREDOCS && Written(raw, [open] + PrintLines(id, hunks) + [close + "EOF"])
    ensures var text := left + Join(raw) + right;
            && (ParsedPatch(text, Lenient) == Ok(ParseResult(Print(id, hunks), HunksOf(hunks), id)) <==> AllReadable(hunks))
            && ParsedPatch(text, Strict) == Err(BadFirstLine)
  {
    WrappedLinesRead(id, hunks, open, close, raw, left, right);
    LinesReadBack(id, hunks);
  }

  /** Nothing else around a patch is taken off. */
  lemma OnlyHeredocsUnwrapped(first: string, inner: Lines, last: string, raw: Lines, left: string, right: string, mode: ParseMode)
    requires Written(raw, [first] + inner + [last]) && AllSpace(left) && AllSpace(right)
    requires first != "" && !IsSpace(first[0]) && last != "" && !IsSpace(last[|last| - 1])
    requires TrimSpace(first) != "*** Begin Patch"
    requires first !in HEREDOCS || |last| < 3 || last[|last| - 3..] != "EOF"
    ensures ParsedPatch(left + Join(raw) + right, mode) == Err(BadFirstLine)
  {
    var lines := [first] + inner + [last];
    FirstAndLast(first, inner, last);
    LinesOfText(raw, lines, left, right);
    BadStart(lines, mode);
  }

  lemma FirstAndLast(first: string, inner: Lines, last: string)
    ensures var lines := [first] + inner + [last]; lines[0] == first && lines[|lines| - 1] == last
  {
  }

  lemma BadStart(lines: Lines, mode: ParseMode)
    requires lines != [] && TrimSpace(lines[0]) != "*** Begin Patch"
    requires lines[0] !in HEREDOCS || !HasSuffix(lines[|lines| - 1], "EOF")
    ensures PatchLines(lines, mode) == Err(BadFirstLine)
  {
  }
}
