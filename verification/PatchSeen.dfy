/**
 What the parser reads of a patch that it does not read back: lines that look
 blank are skipped before the first chunk of an update (parser.go:227-231).
 */
module PatchSeen {

  import opened PatchTypes
  import opened LineText
  import opened Whitespace
  import opened PatchParser
  import opened PatchText
  import opened ChangeLines
  import opened PatchPrinter
  import opened OldLineCount
  import opened PatchRoundTrip

  // ----- What is read of a start that looks blank

  lemma {:induction false} BlankLinesLookBlank(body: seq<ChangeLine>)
    ensures forall t :: 0 <= t < BlankLines(body) ==> IsBlank(Spelling(body[t]))
  {
    if body != [] && IsBlank(Spelling(body[0])) {
      BlankLinesLookBlank(body[1..]);
      assert forall t :: 0 < t < |body| ==> body[t] == body[1..][t - 1];
    }
  }

  /** `k` lines from `i` on are skipped before a first chunk. */
  ghost predicate Skips(read: ChunkReader, i: nat, k: nat) {
    forall j: nat :: i <= j < i + k ==> read(j, true) == Skip
  }

  lemma {:induction false} BlankLinesSkipped(read: ChunkReader, n: nat, i: nat, k: nat)
    requires i + k <= n && Advances(read, n) && Skips(read, i, k)
    ensures ParsedChunks(read, n, i, []) == ParsedChunks(read, n, i + k, [])
    decreases k
  {
    if k > 0 {
      assert read(i, true) == Skip;
      BlankLinesSkipped(read, n, i + 1, k - 1);
    }
  }

  lemma BodyTextSplit(body: seq<ChangeLine>, k: nat)
    requires k <= |body|
    ensures BodyText(body) == BodyText(body[..k]) + BodyText(body[k..])
  {
  }

  /** The text of a chunk without a mark is the text of its first lines and that of the rest. */
  lemma ChunkTextSplit(c: ChunkText, k: nat)
    requires k <= |c.body| && c.mark == NoMark
    ensures PrintChunk(c) == BodyText(c.body[..k]) + PrintChunk(c.(body := c.body[k..]))
  {
    BodyTextSplit(c.body, k);
    UnmarkedText(c);
    UnmarkedText(c.(body := c.body[k..]));
    TextsConcat(BodyText(c.body[..k]), BodyText(c.body[k..]), EofLines(c));
  }

  lemma UnmarkedText(c: ChunkText)
    requires c.mark == NoMark
    ensures PrintChunk(c) == BodyText(c.body) + EofLines(c)
  {
  }

  lemma HeadText(c: ChunkText, rest: seq<ChunkText>)
    ensures PrintChunks([c] + rest) == PrintChunk(c) + PrintChunks(rest)
  {
    PrintChunksCons([c] + rest);
  }

  /** The text of some chunks is the lines that are skipped and the text of what is seen. */
  lemma SeenText(cs: seq<ChunkText>)
    requires cs != []
    ensures PrintChunks(cs) == BodyText(cs[0].body[..Unseen(cs)]) + PrintChunks(SeenChunks(cs))
  {
    var c, rest, k := cs[0], cs[1..], Unseen(cs);
    var seen, blank := c.(body := c.body[k..]), BodyText(c.body[..k]);
    assert cs == [c] + rest && SeenChunks(cs) == [seen] + rest;
    if c.mark == NoMark {
      HeadText(c, rest);
      HeadText(seen, rest);
      ChunkTextSplit(c, k);
      TextsConcat(blank, PrintChunk(seen), PrintChunks(rest));
    } else {
      assert seen == c && blank == [];
    }
  }

  lemma TextsConcat(a: Lines, b: Lines, c: Lines)
    ensures (a + b) + c == a + (b + c)
  {
  }

  lemma SeenWellFormed(cs: seq<ChunkText>)
    requires WellFormedChunks(cs)
    ensures WellFormedChunks(SeenChunks(cs))
  {
    var seen := SeenChunks(cs);
    forall i | 0 <= i < |seen|
      ensures WellFormedChunk(seen[i], i == 0)
    {
      assert WellFormedChunk(cs[i], i == 0);
    }
  }

  /** An update whose seen part is readable does not start with a starred line. */
  lemma SeenFirstLine(cs: seq<ChunkText>)
    requires WellFormedChunks(cs) && ReadableChunks(SeenChunks(cs))
    ensures cs != [] && PrintChunk(cs[0]) != [] && !Starred(PrintChunk(cs[0])[0])
  {
    var c := cs[0];
    if Unseen(cs) == 0 {
      assert SeenChunks(cs)[0] == c;
      FirstLine(c, true);
    } else {
      LineClassified(c.body[0]);
      assert PrintChunk(c)[0] == BodyText(c.body)[0];
    }
  }

  predicate AllBlank(lines: Lines) {
    forall i :: 0 <= i < |lines| ==> IsBlank(lines[i])
  }

  lemma UnseenIsBlank(cs: seq<ChunkText>)
    requires cs != []
    ensures AllBlank(BodyText(cs[0].body[..Unseen(cs)]))
  {
    BlankLinesLookBlank(cs[0].body);
  }

  /** Wherever a line looks blank, it is skipped. */
  ghost predicate SkipsBlank(read: ChunkReader, lines: Lines) {
    forall j: nat :: j < |lines| && IsBlank(lines[j]) ==> read(j, true) == Skip
  }

  lemma BlankPartSkipped(read: ChunkReader, lines: Lines, start: nat, blank: Lines)
    requires SkipsBlank(read, lines) && AllBlank(blank) && Spells(lines, start, blank)
    ensures Skips(read, start, |blank|)
  {
    forall j: nat | start <= j < start + |blank|
      ensures read(j, true) == Skip
    {
      assert lines[start + (j - start)] == blank[j - start];
    }
  }

  /** Skipping some lines first, the same chunks are read. */
  lemma SkippedFirst(read: ChunkReader, lines: Lines, start: nat, blank: Lines, part: Lines, whole: Lines) returns (mid: nat)
    requires Advances(read, |lines|) && SkipsBlank(read, lines) && AllBlank(blank)
    requires Spells(lines, start, whole) && whole == blank + part
    ensures Spells(lines, mid, part) && mid + |part| == start + |whole|
    ensures ParsedChunks(read, |lines|, start, []) == ParsedChunks(read, |lines|, mid, [])
  {
    mid := start + |blank|;
    SpellsConcat(lines, start, blank, part);
    BlankPartSkipped(read, lines, start, blank);
    BlankLinesSkipped(read, |lines|, start, |blank|);
  }

  /** Lines to skip before lines that read as chunks leave what is read unchanged. */
  lemma SkippingReadsAsChunks(read: ChunkReader, lines: Lines, blank: Lines, part: Lines, whole: Lines, cs: seq<UpdateFileChunk>)
    requires ReadsAsChunks(read, lines, part, cs) && SkipsBlank(read, lines) && AllBlank(blank) && whole == blank + part
    ensures ReadsAsChunks(read, lines, whole, cs)
  {
    forall start: nat | Spells(lines, start, whole) && HunkBoundary(lines, start + |whole|)
      ensures ParsedChunks(read, |lines|, start, []) == Ok((cs, start + |whole|))
    {
      SkippingParsed(read, lines, start, blank, part, whole, cs, start + |whole|);
    }
  }

  lemma SkippingParsed(read: ChunkReader, lines: Lines, start: nat, blank: Lines, part: Lines, whole: Lines, cs: seq<UpdateFileChunk>, end: nat)
    requires ReadsAsChunks(read, lines, part, cs) && SkipsBlank(read, lines) && AllBlank(blank) && whole == blank + part
    requires Spells(lines, start, whole) && end == start + |whole| && HunkBoundary(lines, end)
    ensures ParsedChunks(read, |lines|, start, []) == Ok((cs, end))
  {
    var mid := SkippedFirst(read, lines, start, blank, part, whole);
    assert mid + |part| == end;
  }

  lemma BlankLinesAreSkipped(lines: Lines)
    ensures SkipsBlank(ReadsChunk(lines), lines)
  {
  }

  lemma SeenChunksRead(lines: Lines, cs: seq<ChunkText>)
    requires cs != [] && WellFormedChunks(cs) && ReadableChunks(SeenChunks(cs))
    ensures ReadsAsChunks(ReadsChunk(lines), lines, PrintChunks(cs), ChunksOf(SeenChunks(cs)))
  {
    SeenText(cs);
    SeenWellFormed(cs);
    PrintedChunksRead(lines, SeenChunks(cs));
    UnseenIsBlank(cs);
    BlankLinesAreSkipped(lines);
    SkippingReadsAsChunks(ReadsChunk(lines), lines, BodyText(cs[0].body[..Unseen(cs)]), PrintChunks(SeenChunks(cs)),
                          PrintChunks(cs), ChunksOf(SeenChunks(cs)));
  }

  lemma SeenUpdateReads(lines: Lines, path: string, movePath: Option<string>, cs: seq<ChunkText>)
    requires WellFormedHunk(UpdateText(path, movePath, cs)) && ReadableChunks(SeenChunks(cs))
    ensures ReadsAsHunk(ReadsHunk(lines), lines, [UPDATE_FILE + path] + MoveLines(movePath) + PrintChunks(cs),
                        UpdateFile(path, movePath, ChunksOf(SeenChunks(cs))))
  {
    SeenFirstLine(cs);
    SeenChunksRead(lines, cs);
    UpdateReads(ReadsChunk(lines), ReadsHunk(lines), lines, path, movePath, ChunkParts(cs), ChunksOf(SeenChunks(cs)),
                [UPDATE_FILE + path] + MoveLines(movePath) + PrintChunks(cs));
  }

  lemma SeenHunkReads(lines: Lines, h: HunkText)
    requires WellFormedHunk(h) && ReadableHunk(SeenHunk(h))
    ensures ReadsAsHunk(ReadsHunk(lines), lines, PrintHunk(h), HunkOf(SeenHunk(h)))
  {
    if h.UpdateText? {
      SeenUpdateReads(lines, h.path, h.movePath, h.chunks);
    } else {
      PrintedHunkReads(lines, h);
    }
  }

  lemma SeenHunksRead(lines: Lines, start: nat, hs: seq<HunkText>)
    requires WellFormedHunks(hs) && AllReadable(Seen(hs))
    requires Spells(lines, start, PrintHunks(hs)) && start + |PrintHunks(hs)| == |lines|
    ensures ParsedHunks(ReadsHunk(lines), |lines|, start, []) == Ok(HunksOf(Seen(hs)))
  {
    var said := HunksOf(Seen(hs));
    forall k | 0 <= k < |hs|
      ensures ReadsAsHunk(ReadsHunk(lines), lines, HunkParts(hs)[k], said[k])
    {
      SeenHunkReads(lines, hs[k]);
    }
    var ends := HunksReadBack(ReadsHunk(lines), lines, start, HunkParts(hs), said);
    HunksCollected(ReadsHunk(lines), ends, said, |lines|, start, []);
    assert [] + said == said;
  }

  /** If something can be seen of every update, then what is read is what can be seen. */
  lemma SeenPatchRead(id: Option<string>, hunks: seq<HunkText>, raw: Lines, left: string, right: string, mode: ParseMode)
    requires WellFormedId(id) && WellFormedHunks(hunks) && Written(raw, PrintLines(id, hunks))
    requires AllReadable(Seen(hunks)) && AllSpace(left) && AllSpace(right)
    ensures ParsedPatch(left + Join(raw) + right, mode) == Ok(ParseResult(Print(id, hunks), HunksOf(Seen(hunks)), id))
  {
    PrintedLinesRead(id, hunks, raw, left, right, mode);
    LinesRead(id, hunks);
    SeenHunksRead(PrintBody(id, hunks), HunkStart(id), hunks);
  }

  // ----- Two grammatical patches that are not read back

  /** One update without an id, whose lines after the header are `rest`. */
  lemma OneUpdateLines(path: string, movePath: Option<string>, cs: seq<ChunkText>, rest: Lines)
    requires MoveLines(movePath) + PrintChunks(cs) == rest
    ensures PrintBody(None, [UpdateText(path, movePath, cs)]) == [BEGIN_PATCH, UPDATE_FILE + path] + rest
    ensures PrintLines(None, [UpdateText(path, movePath, cs)]) == [BEGIN_PATCH, UPDATE_FILE + path] + rest + [END_PATCH]
  {
    var h := UpdateText(path, movePath, cs);
    TextsConcat([UPDATE_FILE + path], MoveLines(movePath), PrintChunks(cs));
    OneHunkLines(h, UPDATE_FILE + path, rest);
  }

  lemma OneHunkLines(h: HunkText, header: string, rest: Lines)
    requires PrintHunk(h) == [header] + rest
    ensures PrintBody(None, [h]) == [BEGIN_PATCH, header] + rest
  {
    OneHunkText(h);
    assert [BEGIN_PATCH] + [] == [BEGIN_PATCH];
    TextsConcat([BEGIN_PATCH], [header], rest);
  }

  lemma OneHunkText(h: HunkText)
    ensures PrintHunks([h]) == PrintHunk(h)
  {
    PrintHunksCons([h]);
    assert PrintHunks([]) == [];
  }

  /** A line of spaces is kept and another line is added; the mark is left out. */
  const BLANK_START := ChunkText(NoMark, [Keep(" "), Put("x")], false)

  lemma BlankStartText()
    ensures PrintChunks([BLANK_START]) == ["  ", "+x"]
    ensures ChunkOf(BLANK_START) == UpdateFileChunk(None, [" "], [" ", "x"], false)
  {
    var body := BLANK_START.body;
    HeadText(BLANK_START, []);
    assert [BLANK_START] + [] == [BLANK_START] && PrintChunks([]) == [];
    UnmarkedText(BLANK_START);
    assert Spelling(body[0]) == "  " && Spelling(body[1]) == "+x";
    assert BodyText(body) == ["  ", "+x"];
    assert Olds(body, 1) == [" "] && News(body, 1) == [" "];
    assert Olds(body, 2) == [" "] + [] && News(body, 2) == [" "] + ["x"];
  }

  lemma BlankStartLines(path: string)
    ensures PrintLines(None, [UpdateText(path, None, [BLANK_START])]) == [BEGIN_PATCH, UPDATE_FILE + path, "  ", "+x", END_PATCH]
  {
    BlankStartText();
    OneUpdateLines(path, None, [BLANK_START], ["  ", "+x"]);
    FiveLines(BEGIN_PATCH, UPDATE_FILE + path, "  ", "+x", END_PATCH);
  }

  lemma FiveLines(a: string, b: string, c: string, d: string, e: string)
    ensures [a, b] + [c, d] + [e] == [a, b, c, d, e]
  {
  }

  lemma BlankStartUnseen()
    ensures Unseen([BLANK_START]) == 1
  {
    var body := BLANK_START.body;
    assert Spelling(body[0]) == "  " && Spelling(body[1]) == "+x";
    TrimSpaceEmpty("  ");
    VisibleLine("+x");
    assert BlankLines(body[1..]) == 0;
  }

  lemma BlankStartSeen()
    ensures ReadableChunks(SeenChunks([BLANK_START]))
    ensures ChunksOf(SeenChunks([BLANK_START])) == [UpdateFileChunk(None, [], ["x"], false)]
  {
    var seen := ChunkText(NoMark, [Put("x")], false);
    BlankStartUnseen();
    assert SeenChunks([BLANK_START]) == [seen];
    SeenSays(seen);
  }

  lemma SeenSays(seen: ChunkText)
    requires seen == ChunkText(NoMark, [Put("x")], false)
    ensures ReadableChunk(seen) && ChunkOf(seen) == UpdateFileChunk(None, [], ["x"], false)
  {
    assert Spelling(seen.body[0]) == "+x";
    VisibleLine("+x");
    assert Olds(seen.body, 1) == [] && News(seen.body, 1) == ["x"];
  }

  /** A replacement that starts with a line of spaces, and whose mark is left out, is read as an addition. */
  lemma BlankStartBecomesAddition(path: string, raw: Lines, left: string, right: string, mode: ParseMode)
    requires HeaderPath(path) && AllSpace(left) && AllSpace(right)
    requires Written(raw, PrintLines(None, [UpdateText(path, None, [BLANK_START])]))
    ensures PrintLines(None, [UpdateText(path, None, [BLANK_START])]) == [BEGIN_PATCH, UPDATE_FILE + path, "  ", "+x", END_PATCH]
    ensures ChunkOf(BLANK_START) == UpdateFileChunk(None, [" "], [" ", "x"], false)
    ensures var r := ParsedPatch(left + Join(raw) + right, mode);
            r.Ok? && r.value.hunks == [UpdateFile(path, None, [UpdateFileChunk(None, [], ["x"], false)])]
  {
    BlankStartText();
    BlankStartLines(path);
    BlankStartSeen();
    OneUpdateSeen(path, [BLANK_START], raw, left, right, mode);
  }

  /** One update without an id and a move. */
  lemma OneUpdateSeen(path: string, cs: seq<ChunkText>, raw: Lines, left: string, right: string, mode: ParseMode)
    requires HeaderPath(path) && WellFormedChunks(cs) && ReadableChunks(SeenChunks(cs)) && AllSpace(left) && AllSpace(right)
    requires Written(raw, PrintLines(None, [UpdateText(path, None, cs)]))
    ensures var r := ParsedPatch(left + Join(raw) + right, mode);
            r.Ok? && r.value.hunks == [UpdateFile(path, None, ChunksOf(SeenChunks(cs)))]
  {
    var hunks := [UpdateText(path, None, cs)];
    SeenPatchRead(None, hunks, raw, left, right, mode);
    OneHunkSeen(hunks[0]);
  }

  lemma OneHunkSeen(h: HunkText)
    ensures HunksOf(Seen([h])) == [HunkOf(SeenHunk(h))]
  {
  }

  lemma ChunklessRefused(lines: Lines, path: string, destination: string)
    requires HeaderPath(path) && |lines| == 3 && lines[1] == UPDATE_FILE + path && lines[2] == MOVE_TO + destination
    ensures ParsedHunks(ReadsHunk(lines), |lines|, 1, []) == Err(EmptyUpdate(path, 2))
  {
    UpdateDispatch(ReadsChunk(lines), lines, 1, path);
    MoveRead(destination);
    assert ReadsHunk(lines)(1) == Err(EmptyUpdate(path, 2));
  }

  lemma MoveRead(destination: string)
    ensures CutPrefix(MOVE_TO + destination, MOVE_TO) == Some(destination)
  {
  }

  lemma RenameLines(path: string, destination: string)
    ensures PrintBody(None, [UpdateText(path, Some(destination), [])]) == [BEGIN_PATCH, UPDATE_FILE + path, MOVE_TO + destination]
    ensures PrintLines(None, [UpdateText(path, Some(destination), [])]) ==
            [BEGIN_PATCH, UPDATE_FILE + path, MOVE_TO + destination, END_PATCH]
  {
    OneUpdateLines(path, Some(destination), [], [MOVE_TO + destination]);
  }

  /** An update that only renames is refused. */
  lemma RenameOnlyRefused(path: string, destination: string, raw: Lines, left: string, right: string, mode: ParseMode)
    requires HeaderPath(path) && NoNewline(destination) && AllSpace(left) && AllSpace(right)
    requires Written(raw, PrintLines(None, [UpdateText(path, Some(destination), [])]))
    ensures PrintLines(None, [UpdateText(path, Some(destination), [])]) ==
            [BEGIN_PATCH, UPDATE_FILE + path, MOVE_TO + destination, END_PATCH]
    ensures ParsedPatch(left + Join(raw) + right, mode) == Err(EmptyUpdate(path, 2))
  {
    RenameLines(path, destination);
    RenameRefused([UpdateText(path, Some(destination), [])], path, destination, raw, left, right, mode);
  }

  lemma RenameRefused(hunks: seq<HunkText>, path: string, destination: string, raw: Lines, left: string, right: string, mode: ParseMode)
    requires WellFormedHunks(hunks) && HeaderPath(path) && AllSpace(left) && AllSpace(right)
    requires Written(raw, PrintLines(None, hunks))
    requires PrintBody(None, hunks) == [BEGIN_PATCH, UPDATE_FILE + path, MOVE_TO + destination]
    ensures ParsedPatch(left + Join(raw) + right, mode) == Err(EmptyUpdate(path, 2))
  {
    PrintedLinesRead(None, hunks, raw, left, right, mode);
    LinesRead(None, hunks);
    ChunklessRefused(PrintBody(None, hunks), path, destination);
  }

  // ----- An error that is reported one line too late

  /** A line that cannot start a chunk, wherever a first chunk may start. */
  predicate Unexpected(line: string) {
    && line != "" && line[0] !in {' ', '+', '-', '*'} && line != "@@" && !("@@ " <= line)
    && exists i :: 0 <= i < |line| && !IsSpace(line[i])
  }

  lemma UnexpectedMeans(line: string)
    requires Unexpected(line)
    ensures BodyLineOf(line).Other? && !IsContextLine(line) && !IsBlank(line) && !Starred(line)
  {
    TrimSpaceEmpty(line);
    assert END_OF_FILE[0] == '*';
  }

  lemma UnexpectedRead(lines: Lines, path: string, bad: string)
    requires HeaderPath(path) && Unexpected(bad) && |lines| == 3 && lines[1] == UPDATE_FILE + path && lines[2] == bad
    ensures ParsedHunks(ReadsHunk(lines), |lines|, 1, []) == Err(UnexpectedLine(bad, 4))
  {
    UnexpectedMeans(bad);
    UpdateDispatch(ReadsChunk(lines), lines, 1, path);
    assert bad[0] != MOVE_TO[0];
    assert ReadsChunk(lines)(2, true) == Fail(UnexpectedLine(bad, 4));
    assert ReadsHunk(lines)(1) == Err(UnexpectedLine(bad, 4));
  }

  lemma UpdatePreamble(lines: Lines, path: string)
    requires |lines| >= 2 && lines[1] == UPDATE_FILE + path
    ensures ParsedPreamble(lines) == Ok(None)
  {
    MarkersDiffer();
    NoIdPrefix(UPDATE_FILE, path);
  }

  /** An unexpected line, such as `bad`, is line 3 of its patch and is reported as line 4. */
  lemma UnexpectedLineOneLate(path: string, bad: string, raw: Lines, left: string, right: string, mode: ParseMode)
    requires HeaderPath(path) && Unexpected(bad) && AllSpace(left) && AllSpace(right)
    requires Written(raw, [BEGIN_PATCH, UPDATE_FILE + path, bad, END_PATCH])
    ensures ParsedPatch(left + Join(raw) + right, mode) == Err(UnexpectedLine(bad, 4))
    ensures Unexpected("bad")
  {
    BadIsUnexpected();
    var lines := [BEGIN_PATCH, UPDATE_FILE + path, bad];
    assert [BEGIN_PATCH, UPDATE_FILE + path, bad, END_PATCH] == lines + [END_PATCH];
    EnclosedRead(lines, raw, left, right, mode);
    UpdatePreamble(lines, path);
    UnexpectedRead(lines, path, bad);
  }

  lemma BadIsUnexpected()
    ensures Unexpected("bad")
  {
    assert !IsSpace("bad"[0]);
  }
}
