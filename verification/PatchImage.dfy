/**
 What the parser (internal/applypatch/parser.go) can return: over all texts,
 exactly the printable patches.
 */
module PatchImage {

  import opened PatchTypes
  import opened LineText
  import opened Whitespace
  import opened PatchParser
  import opened PatchText
  import opened PatchPrinter
  import opened PatchRoundTrip

  // ----- The lines of a text

  lemma LinesArePlain(s: string)
    ensures PlainLines(SplitLines(s))
  {
    if s != "" {
      var raw := Split(s);
      var kept := if raw[|raw| - 1] == "" then raw[..|raw| - 1] else raw;
      SplitHasNoNewline(s);
      forall i | 0 <= i < |kept|
        ensures NoNewline(StripReturns(kept)[i])
      {
        assert kept[i] == raw[i];
      }
    }
  }

  lemma TrimmedEnds(s: string)
    ensures var t := TrimSpace(s);
            && (NoNewline(s) ==> NoNewline(t))
            && (t != "" ==> !IsSpace(t[0]) && !IsSpace(t[|t| - 1]))
  {
    EndOfIsTight(s, |s|);
    StartOfIsTight(s, 0, EndOf(s, |s|));
  }

  lemma IdWellFormed(lines: Lines)
    requires PlainLines(lines) && ParsedPreamble(lines).Ok?
    ensures WellFormedId(ParsedPreamble(lines).value)
  {
    if |lines| > 1 {
      var rest := CutPrefix(TrimStart(lines[1]), ENVIRONMENT_ID);
      if rest.Some? {
        TrimmedEnds(rest.value);
      }
    }
  }

  // ----- Chunks

  ghost predicate PlainChanges(read: BodyReader) {
    forall i: nat :: read(i).Change? ==> PlainLines(read(i).olds) && PlainLines(read(i).news)
  }

  lemma ChangesArePlain(lines: Lines)
    requires PlainLines(lines)
    ensures PlainChanges(ReadsBody(lines))
  {
  }

  lemma {:induction false} BodyPlain(read: BodyReader, lines: Lines, at: nat, from: nat, i: nat, chunk: UpdateFileChunk)
    requires at <= from <= i <= |lines| && PlainChanges(read) && PlainChunk(chunk)
    ensures var r := ParsedBody(read, lines, at, from, i, chunk); r.Ok? ==> PlainChunk(r.value.0)
    decreases |lines| - i
  {
    if i < |lines| && read(i).Change? {
      BodyPlain(read, lines, at, from, i + 1, Extend(chunk, read(i)));
    }
  }

  lemma ChunkPrintable(lines: Lines, at: nat, first: bool)
    requires PlainLines(lines)
    ensures var r := ParsedChunk(ReadsBody(lines), lines, at, first); r.Ok? ==> PrintableChunk(r.value.0)
  {
    ChunkNonEmpty(lines, at, first);
    ChangesArePlain(lines);
    if at < |lines| {
      BodyPlain(ReadsBody(lines), lines, at, at, at, UpdateFileChunk(None, [], [], false));
      BodyPlain(ReadsBody(lines), lines, at, at + 1, at + 1, UpdateFileChunk(ContextOf(lines[at]), [], [], false));
    }
  }

  /** Every chunk that the reader takes is printable. */
  ghost predicate TakesPrintable(read: ChunkReader) {
    forall at: nat, first: bool :: read(at, first).Take? ==> PrintableChunk(read(at, first).chunk)
  }

  lemma TakesArePrintable(lines: Lines)
    requires PlainLines(lines)
    ensures TakesPrintable(ReadsChunk(lines))
  {
    forall at: nat, first: bool
      ensures var r := ReadsChunk(lines)(at, first); r.Take? ==> PrintableChunk(r.chunk)
    {
      ChunkPrintable(lines, at, first);
    }
  }

  lemma {:induction false} ChunksPrintable(read: ChunkReader, n: nat, i: nat, chunks: seq<UpdateFileChunk>)
    requires i <= n && Advances(read, n) && TakesPrintable(read)
    requires forall c :: c in chunks ==> PrintableChunk(c)
    ensures var r := ParsedChunks(read, n, i, chunks); r.Ok? ==> forall c :: c in r.value.0 ==> PrintableChunk(c)
    decreases n - i
  {
    if i < n {
      match read(i, chunks == [])
      case Skip => ChunksPrintable(read, n, i + 1, chunks);
      case Take(chunk, end) => ChunksPrintable(read, n, end, chunks + [chunk]);
      case Stop =>
      case Fail(_) =>
    }
  }

  // ----- Hunks

  /** A path after its marker ends with something that can be seen, because the line was trimmed. */
  lemma PathAfter(marker: string, line: string)
    requires marker != "" && IsSpace(marker[|marker| - 1]) && NoNewline(line) && marker <= TrimSpace(line)
    ensures HeaderPath(TrimSpace(line)[|marker|..])
  {
    TrimmedEnds(line);
    assert TrimSpace(line)[|marker| - 1] == marker[|marker| - 1];
  }

  lemma HeaderPrintable(line: string)
    requires NoNewline(line)
    ensures var header := HeaderOf(TrimSpace(line)); header != NoHeader ==> HeaderPath(header.path)
  {
    if ADD_FILE <= TrimSpace(line) {
      PathAfter(ADD_FILE, line);
    } else if DELETE_FILE <= TrimSpace(line) {
      PathAfter(DELETE_FILE, line);
    } else if UPDATE_FILE <= TrimSpace(line) {
      PathAfter(UPDATE_FILE, line);
    }
  }

  lemma {:induction false} AddedWellFormed(lines: Lines, i: nat, contents: string)
    requires i <= |lines| && WellFormedContents(contents)
    ensures WellFormedContents(ParsedAdded(lines, i, contents).0)
    decreases |lines| - i
  {
    if i < |lines| && IsAdded(lines[i]) {
      AddedWellFormed(lines, i + 1, contents + lines[i][1..] + "\n");
    }
  }

  lemma UpdatePrintable(read: ChunkReader, lines: Lines, at: nat, path: string)
    requires at < |lines| && PlainLines(lines) && Advances(read, |lines|) && TakesPrintable(read) && HeaderPath(path)
    ensures var r := ParsedUpdate(read, lines, at, path); r.Ok? ==> PrintableHunk(r.value.0)
  {
    ChunksPrintable(read, |lines|, if MoveLine(lines, at + 1).Some? then at + 2 else at + 1, []);
  }

  lemma HunkPrintable(read: ChunkReader, lines: Lines, at: nat)
    requires PlainLines(lines) && Advances(read, |lines|) && TakesPrintable(read)
    ensures var r := ParsedHunk(read, lines, at); r.Ok? ==> PrintableHunk(r.value.0)
  {
    if at < |lines| {
      HeaderPrintable(lines[at]);
      match HeaderOf(TrimSpace(lines[at]))
      case AddHeader(_) => AddedWellFormed(lines, at + 1, "");
      case UpdateHeader(path) => UpdatePrintable(read, lines, at, path);
      case DeleteHeader(_) =>
      case NoHeader =>
    }
  }

  ghost predicate ReadsPrintable(read: HunkReader) {
    forall at: nat :: read(at).Ok? ==> PrintableHunk(read(at).value.0)
  }

  lemma {:induction false} HunksPrintable(read: HunkReader, n: nat, i: nat, hunks: seq<Hunk>)
    requires i <= n && HunksAdvance(read, n) && ReadsPrintable(read) && PrintableHunks(hunks)
    ensures var r := ParsedHunks(read, n, i, hunks); r.Ok? ==> PrintableHunks(r.value)
    decreases n - i
  {
    if i < n && read(i).Ok? {
      HunksPrintable(read, n, read(i).value.1, hunks + [read(i).value.0]);
    }
  }

  lemma ReadHunksPrintable(lines: Lines)
    requires PlainLines(lines)
    ensures ReadsPrintable(ReadsHunk(lines))
  {
    TakesArePrintable(lines);
    forall at: nat
      ensures var r := ReadsHunk(lines)(at); r.Ok? ==> PrintableHunk(r.value.0)
    {
      HunkPrintable(ReadsChunk(lines), lines, at);
    }
  }

  // ----- The theorems

  /** The text is a patch with these hunks and this environment id. */
  predicate Says(text: string, mode: ParseMode, id: Option<string>, hunks: seq<Hunk>) {
    var r := ParsedPatch(text, mode);
    r.Ok? && r.value.hunks == hunks && r.value.environmentId == id
  }

  lemma LinesSayPrintable(patchLines: Lines)
    requires |patchLines| >= 2 && PlainLines(patchLines)
    ensures var r := ParsedLines(patchLines); r.Ok? ==> WellFormedId(r.value.environmentId) && PrintableHunks(r.value.hunks)
  {
    var lines := BodyLines(patchLines);
    ReadHunksPrintable(lines);
    if ParsedPreamble(lines).Ok? {
      IdWellFormed(lines);
      if ParsedPreamble(lines).value.Some? {
        HunksPrintable(ReadsHunk(lines), |lines|, 2, []);
      } else {
        HunksPrintable(ReadsHunk(lines), |lines|, 1, []);
      }
    }
  }

  lemma PatchLinesPlain(lines: Lines, mode: ParseMode)
    requires PlainLines(lines) && PatchLines(lines, mode).Ok?
    ensures PlainLines(PatchLines(lines, mode).value)
  {
  }

  /** Whatever parses is printable. */
  lemma ParsedIsPrintable(text: string, mode: ParseMode, id: Option<string>, hunks: seq<Hunk>)
    requires Says(text, mode, id, hunks)
    ensures WellFormedId(id) && PrintableHunks(hunks)
  {
    var trimmed := TrimSpace(text);
    var patchLines := PatchLines(SplitLines(trimmed), mode).value;
    LinesArePlain(trimmed);
    PatchLinesPlain(SplitLines(trimmed), mode);
    LinesSayPrintable(patchLines);
    SaidByLines(text, mode, patchLines);
  }

  lemma SaidByLines(text: string, mode: ParseMode, patchLines: Lines)
    requires PatchLines(SplitLines(TrimSpace(text)), mode) == Ok(patchLines)
    ensures |patchLines| >= 2 && ParsedPatch(text, mode) == ParsedLines(patchLines)
  {
  }

  /** A carriage return after line `i`, if it is not the last. */
  function LineAt(lines: Lines, i: nat): string
    requires i < |lines|
  {
    if i < |lines| - 1 then lines[i] + "\r" else lines[i]
  }

  /** A carriage return after every line but the last. */
  function WithReturns(lines: Lines): (r: Lines)
    ensures |r| == |lines|
    ensures forall i :: 0 <= i < |lines| ==> r[i] == LineAt(lines, i)
  {
    seq(|lines|, i requires 0 <= i < |lines| => LineAt(lines, i))
  }

  lemma ReturnStripped(line: string)
    ensures StripReturn(line + "\r") == line
    ensures NoNewline(line) ==> NoNewline(line + "\r")
  {
  }

  lemma LineAtRestored(lines: Lines, i: nat)
    requires i < |lines| && NoNewline(lines[i]) && StripReturn(lines[|lines| - 1]) == lines[|lines| - 1]
    ensures StripReturn(LineAt(lines, i)) == lines[i] && NoNewline(LineAt(lines, i))
  {
    ReturnStripped(lines[i]);
  }

  lemma WithReturnsWritten(lines: Lines)
    requires lines != [] && PlainLines(lines) && StripReturn(lines[|lines| - 1]) == lines[|lines| - 1]
    ensures Written(WithReturns(lines), lines)
  {
    var raw := WithReturns(lines);
    forall i | 0 <= i < |lines|
      ensures StripReturn(raw[i]) == lines[i] && NoNewline(raw[i])
    {
      LineAtRestored(lines, i);
    }
    assert StripReturns(raw) == lines;
  }

  /** The canonical text of a patch. */
  function CanonicalText(id: Option<string>, hunks: seq<Hunk>): string {
    Join(WithReturns(PrintLines(id, Canonical(hunks))))
  }

  lemma PrintedWritten(id: Option<string>, spelling: seq<HunkText>)
    requires WellFormedId(id) && WellFormedHunks(spelling)
    ensures Written(WithReturns(PrintLines(id, spelling)), PrintLines(id, spelling))
  {
    var lines := PrintLines(id, spelling);
    PatchPlain(id, spelling);
    assert lines[|lines| - 1] == END_PATCH;
    WithReturnsWritten(lines);
  }

  /** The canonical text of a printable patch says it. */
  lemma CanonicalTextSays(id: Option<string>, hunks: seq<Hunk>, mode: ParseMode)
    requires WellFormedId(id) && PrintableHunks(hunks)
    ensures Says(CanonicalText(id, hunks), mode, id, hunks)
  {
    var raw := WithReturns(PrintLines(id, Canonical(hunks)));
    CanonicalSays(hunks);
    PrintedWritten(id, Canonical(hunks));
    CanonicalPatchReadBack(id, hunks, raw, "", "", mode);
    Bare(Join(raw));
  }

  lemma Bare(s: string)
    ensures "" + s + "" == s
  {
  }

  /** The parser can return a patch exactly if the patch is printable. */
  lemma ParserImage(id: Option<string>, hunks: seq<Hunk>, mode: ParseMode)
    ensures (exists text :: Says(text, mode, id, hunks)) <==> WellFormedId(id) && PrintableHunks(hunks)
  {
    if WellFormedId(id) && PrintableHunks(hunks) {
      CanonicalTextSays(id, hunks, mode);
    }
    forall text | Says(text, mode, id, hunks)
      ensures WellFormedId(id) && PrintableHunks(hunks)
    {
      ParsedIsPrintable(text, mode, id, hunks);
    }
  }

  /** Whatever parses says the same as its canonical text, in either mode. */
  lemma CanonicalTextSaysTheSame(text: string, mode: ParseMode, id: Option<string>, hunks: seq<Hunk>, other: ParseMode)
    requires Says(text, mode, id, hunks)
    ensures Says(CanonicalText(id, hunks), other, id, hunks)
  {
    ParsedIsPrintable(text, mode, id, hunks);
    CanonicalTextSays(id, hunks, other);
  }
}
