/**
 The texts that the parser accepts (internal/applypatch/parser.go): whatever
 parses follows the grammar of internal/applypatch/doc.go, loosened by whitespace
 around headers, blank lines around chunks and added files without lines, and
 says what its lines say.
 */
module PatchGrammar {

  import opened PatchTypes
  import opened LineText
  import opened Whitespace
  import opened PatchParser
  import opened PatchText
  import opened ChangeLines
  import opened PatchPrinter

  // ----- The loosened grammar

  /** A chunk, and the blank lines before it. */
  datatype LooseChunk = LooseChunk(blank: Lines, text: ChunkText)

  datatype LooseHunk =
    | LooseAdd(header: string, path: string, added: Lines)
    | LooseDelete(header: string, path: string)
    | LooseUpdate(header: string, path: string, movePath: Option<string>, chunks: seq<LooseChunk>, after: Lines)

  predicate BlankLine(line: string) {
    forall i :: 0 <= i < |line| ==> IsSpace(line[i])
  }

  predicate BlankLinesOnly(lines: Lines) {
    forall i :: 0 <= i < |lines| ==> BlankLine(lines[i])
  }

  /** A chunk has a change line, and only a first chunk lacks its mark. */
  predicate LooseChunkOk(c: LooseChunk, first: bool) {
    BlankLinesOnly(c.blank) && c.text.body != [] && (c.text.mark.NoMark? ==> first)
  }

  predicate LooseChunksOk(cs: seq<LooseChunk>, first: bool) {
    forall i :: 0 <= i < |cs| ==> LooseChunkOk(cs[i], first && i == 0)
  }

  predicate LooseOk(h: LooseHunk) {
    match h
    case LooseAdd(header, path, _) => TrimSpace(header) == "*** Add File: " + path
    case LooseDelete(header, path) => TrimSpace(header) == "*** Delete File: " + path
    case LooseUpdate(header, path, _, chunks, after) =>
      && TrimSpace(header) == "*** Update File: " + path
      && chunks != [] && LooseChunksOk(chunks, true) && BlankLinesOnly(after)
  }

  predicate AllLooseOk(hs: seq<LooseHunk>) {
    forall i :: 0 <= i < |hs| ==> LooseOk(hs[i])
  }

  function LooseChunkLines(cs: seq<LooseChunk>): Lines {
    if cs == [] then [] else cs[0].blank + PrintChunk(cs[0].text) + LooseChunkLines(cs[1..])
  }

  function LooseLines(h: LooseHunk): Lines {
    match h
    case LooseAdd(header, _, added) => [header] + Tagged('+', added)
    case LooseDelete(header, _) => [header]
    case LooseUpdate(header, _, movePath, chunks, after) => [header] + MoveLines(movePath) + LooseChunkLines(chunks) + after
  }

  function AllLooseLines(hs: seq<LooseHunk>): Lines {
    if hs == [] then [] else LooseLines(hs[0]) + AllLooseLines(hs[1..])
  }

  function LooseChunksSay(cs: seq<LooseChunk>): seq<UpdateFileChunk> {
    if cs == [] then [] else [ChunkOf(cs[0].text)] + LooseChunksSay(cs[1..])
  }

  function LooseSays(h: LooseHunk): Hunk {
    match h
    case LooseAdd(_, path, added) => AddFile(path, Unlines("", added))
    case LooseDelete(_, path) => DeleteFile(path)
    case LooseUpdate(_, path, movePath, chunks, _) => UpdateFile(path, movePath, LooseChunksSay(chunks))
  }

  function AllLooseSay(hs: seq<LooseHunk>): seq<Hunk> {
    if hs == [] then [] else [LooseSays(hs[0])] + AllLooseSay(hs[1..])
  }

  // ----- Change lines

  function ChangeLineOf(line: string): ChangeLine {
    if line == "" then Blank
    else if line[0] == ' ' then Keep(line[1..])
    else if line[0] == '-' then Cut(line[1..])
    else Put(line[1..])
  }

  lemma ChangeLineSpelled(line: string)
    requires BodyLineOf(line).Change?
    ensures Spelling(ChangeLineOf(line)) == line
    ensures BodyLineOf(line) == Change(OldOf(ChangeLineOf(line)), NewOf(ChangeLineOf(line)))
  {
    if line != "" {
      assert line == [line[0]] + line[1..];
    }
  }

  /** The reader classifies these lines. */
  ghost predicate Classifies(read: BodyReader, lines: Lines) {
    forall i: nat :: i < |lines| ==> read(i) == BodyLineOf(lines[i])
  }

  /** What a body that is read says, and which lines it takes. */
  ghost predicate BodySpelled(lines: Lines, from: nat, context: Option<string>, body: seq<ChangeLine>, eof: bool, chunk: UpdateFileChunk, end: nat) {
    && from <= end <= |lines|
    && chunk == UpdateFileChunk(context, Olds(body, |body|), News(body, |body|), eof)
    && lines[from..end] == BodyText(body) + (if eof then ["*** End of File"] else [])
  }

  lemma SliceCut(lines: Lines, i: nat, mid: nat, end: nat)
    requires i <= mid <= end <= |lines|
    ensures lines[i..end] == lines[i..mid] + lines[mid..end]
  {
  }

  lemma SliceHead(lines: Lines, i: nat, end: nat)
    requires i < end <= |lines|
    ensures lines[i..end] == [lines[i]] + lines[i + 1..end]
  {
  }

  /** Where the change lines from a position on end. */
  function ChangesEnd(read: BodyReader, n: nat, i: nat): (end: nat)
    requires i <= n
    ensures i <= end <= n && (end < n ==> !read(end).Change?)
    ensures forall j :: i <= j < end ==> read(j).Change?
    decreases n - i
  {
    if i < n && read(i).Change? then ChangesEnd(read, n, i + 1) else i
  }

  function ChangeLinesOf(lines: Lines): (r: seq<ChangeLine>)
    ensures |r| == |lines|
    ensures forall i :: 0 <= i < |lines| ==> r[i] == ChangeLineOf(lines[i])
  {
    seq(|lines|, i requires 0 <= i < |lines| => ChangeLineOf(lines[i]))
  }

  /** The change lines that the reader finds. */
  lemma ChangesFound(read: BodyReader, lines: Lines, from: nat, end: nat)
    requires from <= end <= |lines| && Classifies(read, lines) && forall j :: from <= j < end ==> read(j).Change?
    ensures var body := ChangeLinesOf(lines[from..end]); Finds(read, from, body) && lines[from..end] == BodyText(body)
  {
    var body := ChangeLinesOf(lines[from..end]);
    forall t: nat | t < |body|
      ensures read(from + t) == Change(OldOf(body[t]), NewOf(body[t])) && lines[from..end][t] == Spelling(body[t])
    {
      assert read(from + t).Change?;
      ChangeLineSpelled(lines[from + t]);
    }
  }

  /** A body that an End-of-File marker ends. */
  lemma BodyMarked(lines: Lines, from: nat, end: nat, context: Option<string>, body: seq<ChangeLine>, chunk: UpdateFileChunk)
    requires from <= end < |lines| && lines[from..end] == BodyText(body) && lines[end] == "*** End of File"
    requires chunk == After(context, body, |body|)
    ensures BodySpelled(lines, from, context, body, true, chunk.(isEndOfFile := true), end + 1)
  {
    SliceCut(lines, from, end, end + 1);
    assert lines[end..end + 1] == [lines[end]];
  }

  lemma BodyUnmarked(lines: Lines, from: nat, end: nat, context: Option<string>, body: seq<ChangeLine>, chunk: UpdateFileChunk)
    requires from <= end <= |lines| && lines[from..end] == BodyText(body) && chunk == After(context, body, |body|)
    ensures BodySpelled(lines, from, context, body, false, chunk, end)
  {
    assert BodyText(body) + [] == BodyText(body);
  }

  /** How a body ends. */
  lemma BodyDone(read: BodyReader, lines: Lines, at: nat, from: nat, end: nat, context: Option<string>, body: seq<ChangeLine>, chunk: UpdateFileChunk)
    requires at <= from <= end <= |lines| && Classifies(read, lines) && lines[from..end] == BodyText(body)
    requires end == |lines| || !read(end).Change?
    requires chunk == After(context, body, |body|) && ParsedBody(read, lines, at, from, end, chunk).Ok?
    ensures var (said, last) := ParsedBody(read, lines, at, from, end, chunk).value;
            BodySpelled(lines, from, context, body, end < |lines| && read(end).Marker?, said, last)
    ensures from < |lines| ==> from < end
  {
    if end < |lines| && read(end).Marker? {
      BodyMarked(lines, from, end, context, body, chunk);
    } else {
      BodyUnmarked(lines, from, end, context, body, chunk);
    }
  }

  lemma BodyAccepted(read: BodyReader, lines: Lines, at: nat, from: nat, context: Option<string>)
    returns (body: seq<ChangeLine>, eof: bool)
    requires at <= from < |lines| && Classifies(read, lines)
    requires ParsedBody(read, lines, at, from, from, UpdateFileChunk(context, [], [], false)).Ok?
    ensures var (chunk, end) := ParsedBody(read, lines, at, from, from, UpdateFileChunk(context, [], [], false)).value;
            BodySpelled(lines, from, context, body, eof, chunk, end)
    ensures body != []
  {
    var end := ChangesEnd(read, |lines|, from);
    body, eof := ChangeLinesOf(lines[from..end]), end < |lines| && read(end).Marker?;
    ChangesFound(read, lines, from, end);
    ReadsChanges(read, lines, at, from, context, body, |body|);
    BodyDone(read, lines, at, from, end, context, body, After(context, body, |body|));
  }

  // ----- Chunks

  function MarkOf(line: string): ContextMark {
    if line == "@@" then BareMark else if "@@ " <= line then NamedMark(line[3..]) else NoMark
  }

  lemma MarkSpelled(line: string)
    requires IsContextLine(line)
    ensures MarkLines(MarkOf(line)) == [line] && ContextSaid(MarkOf(line)) == ContextOf(line) && MarkOf(line) != NoMark
  {
    if line != "@@" {
      assert line == "@@ " + line[3..];
    }
  }

  /** A marked body is a chunk text. */
  lemma MarkedText(lines: Lines, at: nat, body: seq<ChangeLine>, eof: bool, chunk: UpdateFileChunk, end: nat) returns (text: ChunkText)
    requires at < |lines| && IsContextLine(lines[at]) && body != []
    requires BodySpelled(lines, at + 1, ContextOf(lines[at]), body, eof, chunk, end)
    ensures IsText(lines[at..end], false, text, chunk)
  {
    text := ChunkText(MarkOf(lines[at]), body, eof);
    MarkSpelled(lines[at]);
    SliceHead(lines, at, end);
    assert [lines[at]] + (BodyText(body) + EofLines(text)) == [lines[at]] + BodyText(body) + EofLines(text);
  }

  lemma UnmarkedText(lines: Lines, at: nat, body: seq<ChangeLine>, eof: bool, chunk: UpdateFileChunk, end: nat) returns (text: ChunkText)
    requires body != [] && BodySpelled(lines, at, None, body, eof, chunk, end)
    ensures IsText(lines[at..end], true, text, chunk)
  {
    text := ChunkText(NoMark, body, eof);
    assert [] + BodyText(body) == BodyText(body);
  }

  lemma ReaderClassifies(lines: Lines)
    ensures Classifies(ReadsBody(lines), lines)
  {
  }

  predicate IsText(part: Lines, first: bool, text: ChunkText, chunk: UpdateFileChunk) {
    part == PrintChunk(text) && ChunkOf(text) == chunk && LooseChunkOk(LooseChunk([], text), first)
  }

  /** A chunk that is read is the text of its lines. */
  lemma ChunkAccepted(read: BodyReader, lines: Lines, at: nat, first: bool) returns (text: ChunkText)
    requires Classifies(read, lines) && ParsedChunk(read, lines, at, first).Ok?
    ensures var (chunk, end) := ParsedChunk(read, lines, at, first).value;
            at < end <= |lines| && IsText(lines[at..end], first, text, chunk)
  {
    var (chunk, end) := ParsedChunk(read, lines, at, first).value;
    if IsContextLine(lines[at]) {
      var body, eof := BodyAccepted(read, lines, at, at + 1, ContextOf(lines[at]));
      text := MarkedText(lines, at, body, eof, chunk, end);
    } else {
      var body, eof := BodyAccepted(read, lines, at, at, None);
      text := UnmarkedText(lines, at, body, eof, chunk, end);
    }
  }

  /** Wherever the reader takes a chunk, it takes the lines of a text that says it; what it skips is blank. */
  ghost predicate TakesTexts(read: ChunkReader, lines: Lines) {
    forall at: nat, first: bool :: at < |lines| ==>
      match read(at, first)
      case Take(chunk, end) => at < end <= |lines| && exists text :: IsText(lines[at..end], first, text, chunk)
      case Skip => BlankLine(lines[at])
      case _ => true
  }

  lemma ReaderTakesTexts(lines: Lines)
    ensures TakesTexts(ReadsChunk(lines), lines)
  {
    forall at: nat, first: bool | at < |lines|
      ensures match ReadsChunk(lines)(at, first)
              case Take(chunk, end) => at < end <= |lines| && exists text :: IsText(lines[at..end], first, text, chunk)
              case Skip => BlankLine(lines[at])
              case _ => true
    {
      TrimSpaceEmpty(lines[at]);
      ReaderClassifies(lines);
      if ReadsChunk(lines)(at, first).Take? {
        var text := ChunkAccepted(ReadsBody(lines), lines, at, first);
        assert IsText(lines[at..ReadsChunk(lines)(at, first).end], first, text, ReadsChunk(lines)(at, first).chunk);
      }
    }
  }

  /** The chunks of an update, and the blank lines after them. */
  ghost predicate ChunksSpelled(part: Lines, first: bool, cs: seq<LooseChunk>, after: Lines, said: seq<UpdateFileChunk>) {
    && LooseChunksOk(cs, first) && BlankLinesOnly(after)
    && part == LooseChunkLines(cs) + after && said == LooseChunksSay(cs)
  }

  lemma Associates(a: Lines, b: Lines, c: Lines)
    ensures (a + b) + c == a + (b + c)
  {
  }

  lemma BlankBeforeChunk(line: string, c: LooseChunk, rest: Lines)
    ensures [line] + (c.blank + PrintChunk(c.text) + rest) == ([line] + c.blank) + PrintChunk(c.text) + rest
  {
    Associates([line], c.blank, PrintChunk(c.text));
    Associates([line], c.blank + PrintChunk(c.text), rest);
  }

  /** One more blank line in front. */
  lemma BlankInFront(line: string, part: Lines, first: bool, cs: seq<LooseChunk>, after: Lines, said: seq<UpdateFileChunk>)
    returns (cs': seq<LooseChunk>, after': Lines)
    requires BlankLine(line) && ChunksSpelled(part, first, cs, after, said)
    ensures ChunksSpelled([line] + part, first, cs', after', said)
  {
    if cs == [] {
      cs', after' := [], [line] + after;
      assert [] + after == after && [] + after' == after';
    } else {
      var c, rest := cs[0], LooseChunkLines(cs[1..]);
      cs', after' := [c.(blank := [line] + c.blank)] + cs[1..], after;
      assert cs'[1..] == cs[1..];
      BlankBeforeChunk(line, c, rest);
      Associates([line], LooseChunkLines(cs), after);
      assert forall i :: 0 < i < |cs| ==> LooseChunkOk(cs[i], false);
    }
  }

  lemma ChunkLinesInFront(text: ChunkText, cs: seq<LooseChunk>)
    ensures LooseChunkLines([LooseChunk([], text)] + cs) == PrintChunk(text) + LooseChunkLines(cs)
    ensures LooseChunksSay([LooseChunk([], text)] + cs) == [ChunkOf(text)] + LooseChunksSay(cs)
  {
    assert ([LooseChunk([], text)] + cs)[1..] == cs;
    assert [] + PrintChunk(text) == PrintChunk(text);
  }

  /** One more chunk in front. */
  lemma ChunkInFront(text: ChunkText, chunk: UpdateFileChunk, head: Lines, part: Lines, first: bool, cs: seq<LooseChunk>, after: Lines,
                     said: seq<UpdateFileChunk>)
    requires IsText(head, first, text, chunk) && ChunksSpelled(part, false, cs, after, said)
    ensures ChunksSpelled(head + part, first, [LooseChunk([], text)] + cs, after, [chunk] + said)
  {
    ChunkLinesInFront(text, cs);
    Associates(head, LooseChunkLines(cs), after);
    var all := [LooseChunk([], text)] + cs;
    forall i | 0 <= i < |all|
      ensures LooseChunkOk(all[i], first && i == 0)
    {
      assert i > 0 ==> all[i] == cs[i - 1] && LooseChunkOk(cs[i - 1], false);
    }
  }

  /** What the chunks from a position on are, with the end `end`, after `before`. */
  ghost predicate ChunksRead(read: ChunkReader, lines: Lines, i: nat, before: seq<UpdateFileChunk>, said: seq<UpdateFileChunk>, end: nat)
    requires i <= |lines| && Advances(read, |lines|)
  {
    i <= end <= |lines| && ParsedChunks(read, |lines|, i, before) == Ok((before + said, end))
  }

  lemma SkipRead(read: ChunkReader, lines: Lines, i: nat, before: seq<UpdateFileChunk>, said: seq<UpdateFileChunk>, end: nat)
    requires i < |lines| && Advances(read, |lines|) && read(i, before == []).Skip? && ChunksRead(read, lines, i + 1, before, said, end)
    ensures ChunksRead(read, lines, i, before, said, end) && lines[i..end] == [lines[i]] + lines[i + 1..end]
  {
    SliceHead(lines, i, end);
  }

  lemma TakeRead(read: ChunkReader, lines: Lines, i: nat, before: seq<UpdateFileChunk>, chunk: UpdateFileChunk, next: nat, said: seq<UpdateFileChunk>, end: nat)
    requires i < |lines| && Advances(read, |lines|) && read(i, before == []) == Take(chunk, next)
    requires next <= |lines| && ChunksRead(read, lines, next, before + [chunk], said, end)
    ensures ChunksRead(read, lines, i, before, [chunk] + said, end) && i < next && lines[i..end] == lines[i..next] + lines[next..end]
  {
    assert before + [chunk] + said == before + ([chunk] + said);
    SliceCut(lines, i, next, end);
  }

  lemma {:induction false} ChunksAccepted(read: ChunkReader, lines: Lines, i: nat, before: seq<UpdateFileChunk>)
    returns (cs: seq<LooseChunk>, after: Lines, said: seq<UpdateFileChunk>, end: nat)
    requires i <= |lines| && Advances(read, |lines|) && TakesTexts(read, lines)
    requires ParsedChunks(read, |lines|, i, before).Ok?
    ensures ChunksRead(read, lines, i, before, said, end) && ChunksSpelled(lines[i..end], before == [], cs, after, said)
    decreases |lines| - i
  {
    if i == |lines| || read(i, before == []).Stop? {
      cs, after, said, end := [], [], [], i;
      assert before + [] == before;
    } else if read(i, before == []).Skip? {
      cs, after, said, end := ChunksAccepted(read, lines, i + 1, before);
      SkipRead(read, lines, i, before, said, end);
      cs, after := BlankInFront(lines[i], lines[i + 1..end], before == [], cs, after, said);
    } else {
      var chunk, next := read(i, before == []).chunk, read(i, before == []).end;
      var text :| IsText(lines[i..next], before == [], text, chunk);
      cs, after, said, end := ChunksAccepted(read, lines, next, before + [chunk]);
      TakeRead(read, lines, i, before, chunk, next, said, end);
      ChunkInFront(text, chunk, lines[i..next], lines[next..end], before == [], cs, after, said);
      cs, said := [LooseChunk([], text)] + cs, [chunk] + said;
    }
  }

  // ----- Hunks

  lemma TaggedFirst(line: string, rest: Lines)
    ensures Tagged('+', [line] + rest) == ["+" + line] + Tagged('+', rest)
  {
  }

  lemma {:induction false} AddedAccepted(lines: Lines, i: nat, contents: string) returns (added: Lines)
    requires i <= |lines|
    ensures var (all, end) := ParsedAdded(lines, i, contents);
            all == Unlines(contents, added) && lines[i..end] == Tagged('+', added)
    decreases |lines| - i
  {
    if i == |lines| || !IsAdded(lines[i]) {
      added := [];
    } else {
      var line := lines[i][1..];
      var rest := AddedAccepted(lines, i + 1, contents + line + "\n");
      added := [line] + rest;
      TaggedFirst(line, rest);
      assert lines[i] == "+" + line && added[1..] == rest;
      SliceHead(lines, i, ParsedAdded(lines, i + 1, contents + line + "\n").1);
    }
  }

  /** A hunk that is read is what its lines say. */
  ghost predicate HunkSpelled(part: Lines, h: LooseHunk, said: Hunk) {
    LooseOk(h) && part == LooseLines(h) && said == LooseSays(h)
  }

  lemma HeaderSplit(line: string, marker: string)
    requires marker <= TrimSpace(line)
    ensures TrimSpace(line) == marker + TrimSpace(line)[|marker|..]
  {
  }

  lemma AddAccepted(lines: Lines, at: nat, path: string) returns (h: LooseHunk)
    requires at < |lines| && TrimSpace(lines[at]) == "*** Add File: " + path
    ensures var (contents, end) := ParsedAdded(lines, at + 1, "");
            HunkSpelled(lines[at..end], h, AddFile(path, contents))
  {
    var added := AddedAccepted(lines, at + 1, "");
    var end := ParsedAdded(lines, at + 1, "").1;
    h := LooseAdd(lines[at], path, added);
    assert lines[at..end] == [lines[at]] + lines[at + 1..end];
  }

  lemma MoveSpelled(lines: Lines, i: nat)
    ensures MoveLine(lines, i).Some? ==> i < |lines| && MoveLines(MoveLine(lines, i)) == [lines[i]]
  {
    if MoveLine(lines, i).Some? {
      assert lines[i] == "*** Move to: " + lines[i][|MOVE_TO|..];
    }
  }

  /** The lines of an update, from its parts. */
  lemma UpdateLines(lines: Lines, at: nat, start: nat, end: nat, path: string, movePath: Option<string>, cs: seq<LooseChunk>, after: Lines)
    requires at < start <= end <= |lines| && lines[at..start] == [lines[at]] + MoveLines(movePath)
    requires lines[start..end] == LooseChunkLines(cs) + after
    ensures lines[at..end] == LooseLines(LooseUpdate(lines[at], path, movePath, cs, after))
  {
    SliceCut(lines, at, start, end);
    Associates(lines[at..start], LooseChunkLines(cs), after);
  }

  lemma UpdateStart(lines: Lines, at: nat, movePath: Option<string>, start: nat)
    requires at < |lines| && movePath == MoveLine(lines, at + 1) && start == if movePath.Some? then at + 2 else at + 1
    ensures start <= |lines| && lines[at..start] == [lines[at]] + MoveLines(movePath)
  {
    MoveSpelled(lines, at + 1);
    SliceHead(lines, at, start);
  }

  lemma UpdateAccepted(read: ChunkReader, lines: Lines, at: nat, path: string) returns (h: LooseHunk)
    requires at < |lines| && Advances(read, |lines|) && TakesTexts(read, lines)
    requires TrimSpace(lines[at]) == "*** Update File: " + path
    requires ParsedUpdate(read, lines, at, path).Ok?
    ensures var (said, end) := ParsedUpdate(read, lines, at, path).value; HunkSpelled(lines[at..end], h, said)
  {
    var movePath := MoveLine(lines, at + 1);
    var start := if movePath.Some? then at + 2 else at + 1;
    UpdateStart(lines, at, movePath, start);
    var cs, after, said, end := ChunksAccepted(read, lines, start, []);
    h := LooseUpdate(lines[at], path, movePath, cs, after);
    assert [] + said == said;
    UpdateLines(lines, at, start, end, path, movePath, cs, after);
  }

  lemma HunkAccepted(read: ChunkReader, lines: Lines, at: nat) returns (h: LooseHunk)
    requires at < |lines| && Advances(read, |lines|) && TakesTexts(read, lines) && ParsedHunk(read, lines, at).Ok?
    ensures var (said, end) := ParsedHunk(read, lines, at).value; HunkSpelled(lines[at..end], h, said)
  {
    var line := TrimSpace(lines[at]);
    match HeaderOf(line)
    case AddHeader(path) =>
      HeaderSplit(lines[at], ADD_FILE);
      h := AddAccepted(lines, at, path);
    case DeleteHeader(path) =>
      HeaderSplit(lines[at], DELETE_FILE);
      h := LooseDelete(lines[at], path);
      assert lines[at..at + 1] == [lines[at]];
    case UpdateHeader(path) =>
      HeaderSplit(lines[at], UPDATE_FILE);
      h := UpdateAccepted(read, lines, at, path);
  }

  /** Every hunk that the reader reads is what its lines say. */
  ghost predicate ReadsSpelled(read: HunkReader, lines: Lines) {
    forall at: nat :: at < |lines| && read(at).Ok? ==>
      var (said, end) := read(at).value;
      at < end <= |lines| && exists h :: HunkSpelled(lines[at..end], h, said)
  }

  lemma ReaderReadsSpelled(lines: Lines)
    ensures ReadsSpelled(ReadsHunk(lines), lines)
  {
    ReaderTakesTexts(lines);
    forall at: nat | at < |lines| && ReadsHunk(lines)(at).Ok?
      ensures var (said, end) := ReadsHunk(lines)(at).value;
              at < end <= |lines| && exists h :: HunkSpelled(lines[at..end], h, said)
    {
      var h := HunkAccepted(ReadsChunk(lines), lines, at);
      assert HunkSpelled(lines[at..ReadsHunk(lines)(at).value.1], h, ReadsHunk(lines)(at).value.0);
    }
  }

  /** The lines from a position on are hunks, and this is what they say. */
  ghost predicate HunksSpelled(part: Lines, hs: seq<LooseHunk>, said: seq<Hunk>) {
    AllLooseOk(hs) && part == AllLooseLines(hs) && said == AllLooseSay(hs)
  }

  lemma HunkInFront(h: LooseHunk, head: Lines, said: Hunk, part: Lines, hs: seq<LooseHunk>, others: seq<Hunk>)
    requires HunkSpelled(head, h, said) && HunksSpelled(part, hs, others)
    ensures HunksSpelled(head + part, [h] + hs, [said] + others)
  {
    assert ([h] + hs)[1..] == hs;
  }

  lemma HunkRead(read: HunkReader, lines: Lines, i: nat, before: seq<Hunk>, hunk: Hunk, end: nat, others: seq<Hunk>)
    requires i < |lines| && HunksAdvance(read, |lines|) && read(i) == Ok((hunk, end)) && end <= |lines|
    requires ParsedHunks(read, |lines|, end, before + [hunk]) == Ok(before + [hunk] + others)
    ensures ParsedHunks(read, |lines|, i, before) == Ok(before + ([hunk] + others))
    ensures i < end && lines[i..|lines|] == lines[i..end] + lines[end..|lines|]
  {
    HunkTaken(read, |lines|, i, before, hunk, end);
    assert before + [hunk] + others == before + ([hunk] + others);
    SliceCut(lines, i, end, |lines|);
  }

  lemma {:induction false} HunksAccepted(read: HunkReader, lines: Lines, i: nat, before: seq<Hunk>)
    returns (hs: seq<LooseHunk>, said: seq<Hunk>)
    requires i <= |lines| && HunksAdvance(read, |lines|) && ReadsSpelled(read, lines)
    requires ParsedHunks(read, |lines|, i, before).Ok?
    ensures ParsedHunks(read, |lines|, i, before) == Ok(before + said) && HunksSpelled(lines[i..|lines|], hs, said)
    decreases |lines| - i
  {
    if i == |lines| {
      hs, said := [], [];
      assert before + [] == before;
    } else {
      var (hunk, end) := read(i).value;
      HunkTaken(read, |lines|, i, before, hunk, end);
      var h :| HunkSpelled(lines[i..end], h, hunk);
      var rest, others := HunksAccepted(read, lines, end, before + [hunk]);
      HunkRead(read, lines, i, before, hunk, end, others);
      HunkInFront(h, lines[i..end], hunk, lines[end..|lines|], rest, others);
      hs, said := [h] + rest, [hunk] + others;
    }
  }

  // ----- The whole text

  /** An id line, or none, and then hunks, between the two envelope lines. */
  ghost predicate EnvelopeSpelled(lines: Lines, r: ParseResult, idLines: Lines, hs: seq<LooseHunk>) {
    && |lines| >= 2 && TrimSpace(lines[0]) == "*** Begin Patch" && TrimSpace(lines[|lines| - 1]) == "*** End Patch"
    && lines[1..|lines| - 1] == idLines + AllLooseLines(hs)
    && AllLooseOk(hs) && r.hunks == AllLooseSay(hs) && r.patch == Join(lines)
    && match r.environmentId
       case None => idLines == []
       case Some(id) => |idLines| == 1 && IdLine(idLines[0], id)
  }

  /** Whitespace, the marker, and the id with whitespace around it. */
  ghost predicate IdLine(line: string, id: string) {
    exists left, rest :: AllSpace(left) && line == left + "*** Environment ID: " + rest && TrimSpace(rest) == id && id != ""
  }

  lemma IdAccepted(line: string, rest: string)
    requires CutPrefix(TrimStart(line), ENVIRONMENT_ID) == Some(rest) && TrimSpace(rest) != ""
    ensures IdLine(line, TrimSpace(rest))
  {
    var n := StartOf(line, 0, |line|);
    StartOfIsTight(line, 0, |line|);
    assert line == line[..n] + TrimStart(line);
    assert TrimStart(line) == "*** Environment ID: " + rest;
    assert AllSpace(line[..n]) && line == line[..n] + "*** Environment ID: " + rest;
  }

  /** Whatever lines parse spell what they are read as. */
  lemma LinesAccepted(lines: Lines) returns (idLines: Lines, hs: seq<LooseHunk>)
    requires BoundaryError(lines).None? && |lines| >= 2 && ParsedLines(lines).Ok?
    ensures EnvelopeSpelled(lines, ParsedLines(lines).value, idLines, hs)
  {
    var body := BodyLines(lines);
    var id := ParsedPreamble(body).value;
    var start := if id.Some? then 2 else 1;
    ReaderReadsSpelled(body);
    var said;
    hs, said := HunksAccepted(ReadsHunk(body), body, start, []);
    assert [] + said == said;
    idLines := body[1..start];
    SliceCut(body, 1, start, |body|);
    assert lines[1..|lines| - 1] == body[1..|body|];
    if id.Some? {
      IdAccepted(body[1], CutPrefix(TrimStart(body[1]), ENVIRONMENT_ID).value);
      assert idLines == [body[1]];
    }
  }

  /** The lines themselves, or leniently those within a heredoc. */
  predicate PatchWithin(lines: Lines, mode: ParseMode, inner: Lines) {
    || inner == lines
    || (&& mode == Lenient && |lines| >= 4 && lines == [lines[0]] + inner + [lines[|lines| - 1]]
        && lines[0] in {"<<EOF", "<<'EOF'", "<<\"EOF\""}
        && |lines[|lines| - 1]| >= 3 && lines[|lines| - 1][|lines[|lines| - 1]| - 3..] == "EOF")
  }

  lemma PatchLinesWithin(lines: Lines, mode: ParseMode)
    requires PatchLines(lines, mode).Ok?
    ensures PatchWithin(lines, mode, PatchLines(lines, mode).value) && BoundaryError(PatchLines(lines, mode).value).None?
  {
    if BoundaryError(lines).Some? {
      assert lines == [lines[0]] + lines[1..|lines| - 1] + [lines[|lines| - 1]];
    }
  }

  /** Every text that parses follows the loosened grammar, and is read as what its lines say. */
  lemma AcceptedIsSpelled(text: string, mode: ParseMode) returns (inner: Lines, idLines: Lines, hs: seq<LooseHunk>)
    requires ParsedPatch(text, mode).Ok?
    ensures PatchWithin(SplitLines(TrimSpace(text)), mode, inner)
    ensures EnvelopeSpelled(inner, ParsedPatch(text, mode).value, idLines, hs)
  {
    inner := PatchLines(SplitLines(TrimSpace(text)), mode).value;
    PatchLinesWithin(SplitLines(TrimSpace(text)), mode);
    idLines, hs := LinesAccepted(inner);
  }
}
