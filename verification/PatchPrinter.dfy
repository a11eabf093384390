/** How the parser reads the texts of a patch (internal/applypatch/parser.go). */
module PatchPrinter {

  import opened PatchTypes
  import opened LineText
  import opened Whitespace
  import opened PatchParser
  import opened PatchText
  import opened ChangeLines

  // ----- Finding printed lines in a patch

  /** The lines from `i` on begin with `printed`. */
  predicate Spells(lines: Lines, i: nat, printed: Lines) {
    i + |printed| <= |lines| && forall t :: 0 <= t < |printed| ==> lines[i + t] == printed[t]
  }

  lemma SpellsConcat(lines: Lines, i: nat, p: Lines, q: Lines)
    requires Spells(lines, i, p + q)
    ensures Spells(lines, i, p) && Spells(lines, i + |p|, q)
  {
    assert forall t :: 0 <= t < |p| ==> (p + q)[t] == p[t];
    forall t | 0 <= t < |q|
      ensures lines[i + |p| + t] == q[t]
    {
      assert (p + q)[|p| + t] == q[t];
    }
  }

  /** The first of some tagged lines, and the others. */
  lemma TaggedHeadAndTail(lines: Lines, i: nat, tag: char, ls: Lines)
    requires ls != [] && Spells(lines, i, Tagged(tag, ls))
    ensures i < |lines| && lines[i] == [tag] + ls[0]
    ensures Spells(lines, i + 1, Tagged(tag, ls[1..]))
  {
    assert Tagged(tag, ls) == [[tag] + ls[0]] + Tagged(tag, ls[1..]);
    SpellsConcat(lines, i, [[tag] + ls[0]], Tagged(tag, ls[1..]));
    assert lines[i + 0] == Tagged(tag, ls)[0];
  }

  /** The first line of a printed hunk. */
  predicate StartsHunk(line: string) {
    Starred(line) && line != END_OF_FILE
  }

  /** The lines end here, or the next hunk starts here. */
  predicate HunkBoundary(lines: Lines, i: nat) {
    i == |lines| || (i < |lines| && StartsHunk(lines[i]))
  }

  /** The lines end here, or the next chunk or hunk starts here. */
  predicate ChunkBoundary(lines: Lines, i: nat) {
    HunkBoundary(lines, i) || (i < |lines| && lines[i] != "" && lines[i][0] == '@')
  }

  lemma VisibleLine(line: string)
    requires line != "" && !IsSpace(line[0])
    ensures !IsBlank(line)
  {
    TrimSpaceEmpty(line);
  }

  // ----- Chunks

  /** The reader finds the change lines from `i` on. */
  ghost predicate Finds(read: BodyReader, i: nat, body: seq<ChangeLine>) {
    forall t: nat :: t < |body| ==> read(i + t) == Change(OldOf(body[t]), NewOf(body[t]))
  }

  /** What a chunk says after its first `k` change lines. */
  function After(context: Option<string>, body: seq<ChangeLine>, k: nat): UpdateFileChunk
    requires k <= |body|
  {
    UpdateFileChunk(context, Olds(body, k), News(body, k), false)
  }

  lemma {:induction false} ReadsChanges(read: BodyReader, lines: Lines, at: nat, from: nat, context: Option<string>, body: seq<ChangeLine>, k: nat)
    requires at <= from && from + |body| <= |lines| && k <= |body| && Finds(read, from, body)
    ensures ParsedBody(read, lines, at, from, from, After(context, body, 0)) ==
            ParsedBody(read, lines, at, from, from + k, After(context, body, k))
  {
    if k > 0 {
      ReadsChanges(read, lines, at, from, context, body, k - 1);
      assert read(from + (k - 1)) == Change(OldOf(body[k - 1]), NewOf(body[k - 1]));
    }
  }

  lemma LineClassified(line: ChangeLine)
    ensures BodyLineOf(Spelling(line)) == Change(OldOf(line), NewOf(line))
  {
    assert END_OF_FILE[0] == '*';
    if line != Blank {
      assert Spelling(line)[1..] == line.text;
    }
  }

  /** The change lines, as the reader classifies them. */
  lemma BodyClassified(lines: Lines, i: nat, body: seq<ChangeLine>)
    requires Spells(lines, i, BodyText(body))
    ensures Finds(ReadsBody(lines), i, body)
  {
    forall t: nat | t < |body|
      ensures ReadsBody(lines)(i + t) == Change(OldOf(body[t]), NewOf(body[t]))
    {
      assert lines[i + t] == BodyText(body)[t];
      LineClassified(body[t]);
    }
  }

  /** After the change lines: the marker of an End-of-File chunk, or a boundary. */
  ghost predicate BodyEnds(read: BodyReader, n: nat, end: nat, eof: bool) {
    if eof then end < n && read(end).Marker? else end == n || (end < n && read(end).Other?)
  }

  lemma BodyReadBack(read: BodyReader, lines: Lines, at: nat, from: nat, c: ChunkText)
    requires c.body != [] && at <= from && from + |c.body| <= |lines| && Finds(read, from, c.body)
    requires BodyEnds(read, |lines|, from + |c.body|, c.isEndOfFile)
    ensures ParsedBody(read, lines, at, from, from, UpdateFileChunk(ContextSaid(c.mark), [], [], false)) ==
            Ok((ChunkOf(c), from + |c.body| + if c.isEndOfFile then 1 else 0))
  {
    ReadsChanges(read, lines, at, from, ContextSaid(c.mark), c.body, |c.body|);
  }

  lemma MarkRead(mark: ContextMark)
    requires mark != NoMark
    ensures |MarkLines(mark)| == 1
    ensures var line := MarkLines(mark)[0];
            IsContextLine(line) && ContextOf(line) == ContextSaid(mark) && line != "" && line[0] == '@'
  {
  }

  lemma EndClassified(lines: Lines, end: nat, c: ChunkText)
    requires Spells(lines, end, EofLines(c))
    requires c.isEndOfFile || ChunkBoundary(lines, end)
    ensures BodyEnds(ReadsBody(lines), |lines|, end, c.isEndOfFile)
  {
    if c.isEndOfFile {
      assert lines[end + 0] == EofLines(c)[0];
    }
  }

  /** The first line of a chunk text is a mark, or a change line that is not skipped. */
  lemma FirstLine(c: ChunkText, first: bool)
    requires WellFormedChunk(c, first) && ReadableChunk(c)
    ensures PrintChunk(c) != []
    ensures var line := PrintChunk(c)[0];
            && !IsBlank(line) && line != "" && !Starred(line)
            && (c.mark != NoMark ==> line == MarkLines(c.mark)[0] && line[0] == '@')
            && (c.mark == NoMark ==> line == Spelling(c.body[0]) && !IsContextLine(line) && line[0] != '@')
  {
    if c.mark == NoMark {
      assert PrintChunk(c)[0] == BodyText(c.body)[0];
      TrimSpaceEmpty("");
      assert EMPTY_CHANGE_CONTEXT[0] == CHANGE_CONTEXT[0] == '@';
    } else {
      MarkRead(c.mark);
      VisibleLine(MarkLines(c.mark)[0]);
    }
  }

  /** Where the change lines of a chunk text start. */
  function BodyStart(at: nat, c: ChunkText): nat {
    if c.mark == NoMark then at else at + 1
  }

  /** A chunk text is read from its change lines on, after its mark if it has one. */
  lemma MarkSkipped(read: BodyReader, lines: Lines, at: nat, c: ChunkText, first: bool)
    requires WellFormedChunk(c, first) && ReadableChunk(c) && BodyStart(at, c) < |lines| && lines[at] == PrintChunk(c)[0]
    ensures ParsedChunk(read, lines, at, first) ==
            ParsedBody(read, lines, at, BodyStart(at, c), BodyStart(at, c), UpdateFileChunk(ContextSaid(c.mark), [], [], false))
  {
    FirstLine(c, first);
    if c.mark != NoMark {
      MarkRead(c.mark);
    }
  }

  /** The parts of a printed chunk stand one after another. */
  lemma ChunkSpelled(lines: Lines, at: nat, c: ChunkText)
    requires c.body != [] && Spells(lines, at, PrintChunk(c))
    ensures lines[at] == PrintChunk(c)[0] && |PrintChunk(c)| == BodyStart(0, c) + |c.body| + |EofLines(c)|
    ensures Spells(lines, BodyStart(at, c), BodyText(c.body)) && Spells(lines, BodyStart(at, c) + |c.body|, EofLines(c))
  {
    var mark, body, eof := MarkLines(c.mark), BodyText(c.body), EofLines(c);
    SpellsConcat(lines, at, mark + body, eof);
    SpellsConcat(lines, at, mark, body);
    assert lines[at + 0] == PrintChunk(c)[0];
  }

  /** The reader finds the body of a printed chunk and its end. */
  lemma ChunkFound(lines: Lines, at: nat, c: ChunkText)
    requires c.body != [] && Spells(lines, at, PrintChunk(c))
    requires c.isEndOfFile || ChunkBoundary(lines, at + |PrintChunk(c)|)
    ensures var from := BodyStart(at, c);
            && from + |c.body| <= |lines| && lines[at] == PrintChunk(c)[0]
            && Finds(ReadsBody(lines), from, c.body) && BodyEnds(ReadsBody(lines), |lines|, from + |c.body|, c.isEndOfFile)
            && at + |PrintChunk(c)| == from + |c.body| + if c.isEndOfFile then 1 else 0
  {
    var from := BodyStart(at, c);
    ChunkSpelled(lines, at, c);
    BodyClassified(lines, from, c.body);
    EndClassified(lines, from + |c.body|, c);
  }

  lemma ChunkReadBack(read: BodyReader, lines: Lines, at: nat, c: ChunkText, first: bool)
    requires WellFormedChunk(c, first) && ReadableChunk(c) && BodyStart(at, c) + |c.body| <= |lines| && lines[at] == PrintChunk(c)[0]
    requires Finds(read, BodyStart(at, c), c.body) && BodyEnds(read, |lines|, BodyStart(at, c) + |c.body|, c.isEndOfFile)
    ensures ParsedChunk(read, lines, at, first) ==
            Ok((ChunkOf(c), BodyStart(at, c) + |c.body| + if c.isEndOfFile then 1 else 0))
  {
    MarkSkipped(read, lines, at, c, first);
    BodyReadBack(read, lines, at, BodyStart(at, c), c);
  }

  /** The chunk loop takes the chunk, when it finds it. */
  lemma ChunkTaken(lines: Lines, at: nat, c: ChunkText, first: bool, end: nat)
    requires at < |lines| && !IsBlank(lines[at]) && !Starred(lines[at])
    requires ParsedChunk(ReadsBody(lines), lines, at, first) == Ok((ChunkOf(c), end))
    ensures ReadsChunk(lines)(at, first) == Take(ChunkOf(c), end)
  {
  }

  /** Reading at `i` gives the chunks one after another, chunk `k` ending at `ends[k]`, and then the update ends. */
  ghost predicate ChunksAt(read: ChunkReader, n: nat, i: nat, cs: seq<UpdateFileChunk>, ends: seq<nat>, first: bool)
    decreases |cs|
  {
    |ends| == |cs| &&
    if cs == [] then i == n || read(i, first) == Stop
    else
      && i < ends[0] <= n
      && read(i, first) == Take(cs[0], ends[0])
      && ChunksAt(read, n, ends[0], cs[1..], ends[1..], false)
  }

  function Last(i: nat, ends: seq<nat>): nat {
    if ends == [] then i else ends[|ends| - 1]
  }

  lemma {:induction false} ChunksCollected(read: ChunkReader, n: nat, i: nat, cs: seq<UpdateFileChunk>, ends: seq<nat>, done: seq<UpdateFileChunk>)
    requires i <= n && Advances(read, n) && ChunksAt(read, n, i, cs, ends, done == [])
    ensures ParsedChunks(read, n, i, done) == Ok((done + cs, Last(i, ends)))
    decreases |cs|
  {
    if cs == [] {
      assert done + cs == done;
    } else {
      ChunksCollected(read, n, ends[0], cs[1..], ends[1..], done + [cs[0]]);
      assert done + [cs[0]] + cs[1..] == done + cs;
    }
  }

  /** Wherever `part` stands before a boundary, as a first or a later chunk, it is read as `c`. */
  ghost predicate ReadsAsChunk(read: ChunkReader, lines: Lines, part: Lines, c: UpdateFileChunk, first: bool) {
    && part != [] && part[0] != "" && (!first ==> part[0][0] == '@')
    && forall at: nat :: Spells(lines, at, part) && ChunkBoundary(lines, at + |part|) ==>
         read(at, first) == Take(c, at + |part|)
  }

  /** Wherever a hunk starts, the update before it ends. */
  ghost predicate StopsAtHunks(read: ChunkReader, lines: Lines) {
    forall at: nat, first: bool :: at < |lines| && StartsHunk(lines[at]) ==> read(at, first) == Stop
  }

  /** Parts that read as chunks, one after another, read as the chunks. */
  lemma {:induction false} ChunksReadBack(read: ChunkReader, lines: Lines, i: nat, parts: seq<Lines>, cs: seq<UpdateFileChunk>, first: bool)
    returns (ends: seq<nat>)
    requires |parts| == |cs| && forall k :: 0 <= k < |cs| ==> ReadsAsChunk(read, lines, parts[k], cs[k], first && k == 0)
    requires StopsAtHunks(read, lines)
    requires Spells(lines, i, Flatten(parts)) && HunkBoundary(lines, i + |Flatten(parts)|)
    ensures ChunksAt(read, |lines|, i, cs, ends, first) && Last(i, ends) == i + |Flatten(parts)|
    decreases |cs|
  {
    if cs == [] {
      ends := [];
    } else {
      var part, rest := parts[0], Flatten(parts[1..]);
      var end := i + |part|;
      SpellsConcat(lines, i, part, rest);
      assert ChunkBoundary(lines, end) by {
        if |parts| > 1 {
          assert ReadsAsChunk(read, lines, parts[1], cs[1], false);
          assert lines[end + 0] == rest[0] == parts[1][0];
        }
      }
      assert ReadsAsChunk(read, lines, part, cs[0], first);
      forall k | 0 <= k < |cs| - 1
        ensures ReadsAsChunk(read, lines, parts[1..][k], cs[1..][k], false)
      {
        assert ReadsAsChunk(read, lines, parts[k + 1], cs[k + 1], false);
      }
      var tail := ChunksReadBack(read, lines, end, parts[1..], cs[1..], false);
      ends := [end] + tail;
      assert ends[1..] == tail;
    }
  }

  lemma ChunkParsed(lines: Lines, at: nat, c: ChunkText, first: bool)
    requires WellFormedChunk(c, first) && ReadableChunk(c) && Spells(lines, at, PrintChunk(c))
    requires c.isEndOfFile || ChunkBoundary(lines, at + |PrintChunk(c)|)
    ensures ParsedChunk(ReadsBody(lines), lines, at, first) == Ok((ChunkOf(c), at + |PrintChunk(c)|))
  {
    ChunkFound(lines, at, c);
    ChunkReadBack(ReadsBody(lines), lines, at, c, first);
  }

  lemma PrintedChunkTaken(lines: Lines, at: nat, c: ChunkText, first: bool, end: nat)
    requires WellFormedChunk(c, first) && ReadableChunk(c) && Spells(lines, at, PrintChunk(c)) && end == at + |PrintChunk(c)|
    requires ChunkBoundary(lines, end)
    ensures ReadsChunk(lines)(at, first) == Take(ChunkOf(c), end)
  {
    FirstLine(c, first);
    assert lines[at + 0] == PrintChunk(c)[0];
    ChunkParsed(lines, at, c, first);
    ChunkTaken(lines, at, c, first, end);
  }

  lemma PrintedChunkReads(lines: Lines, c: ChunkText, first: bool, part: Lines)
    requires WellFormedChunk(c, first) && ReadableChunk(c) && part == PrintChunk(c)
    ensures ReadsAsChunk(ReadsChunk(lines), lines, part, ChunkOf(c), first)
  {
    FirstLine(c, first);
    forall at: nat | Spells(lines, at, part) && ChunkBoundary(lines, at + |part|)
      ensures ReadsChunk(lines)(at, first) == Take(ChunkOf(c), at + |part|)
    {
      PrintedChunkTaken(lines, at, c, first, at + |part|);
    }
  }

  lemma UpdatesStopAtHunks(lines: Lines)
    ensures StopsAtHunks(ReadsChunk(lines), lines)
  {
    forall at: nat, first: bool | at < |lines| && StartsHunk(lines[at])
      ensures ReadsChunk(lines)(at, first) == Stop
    {
      VisibleLine(lines[at]);
    }
  }

  // ----- Hunks

  /** The fifth character tells the markers apart. */
  lemma MarkersDiffer()
    ensures |ADD_FILE| > 4 && |DELETE_FILE| > 4 && |UPDATE_FILE| > 4 && |END_OF_FILE| > 4
    ensures ADD_FILE[0] == DELETE_FILE[0] == UPDATE_FILE[0] == '*'
    ensures ADD_FILE[4] == 'A' && DELETE_FILE[4] == 'D' && UPDATE_FILE[4] == 'U' && END_OF_FILE[4] == 'E'
  {
  }

  lemma NotPrefix(p: string, s: string, k: nat)
    requires k < |p| && k < |s| && p[k] != s[k]
    ensures !(p <= s) && p != s
  {
  }

  /** A marker and a path: nothing to trim, and the path after the marker. */
  lemma HeaderLine(marker: string, path: string)
    requires |marker| > 4 && marker[0] == '*' && HeaderPath(path)
    ensures var line := marker + path;
            && TrimSpace(line) == line && marker <= line && line[|marker|..] == path
            && |line| > 4 && line[0] == '*' && line[4] == marker[4]
  {
    TrimNothing(marker + path);
  }

  lemma AddHeaderRead(path: string)
    requires HeaderPath(path)
    ensures var line := ADD_FILE + path; TrimSpace(line) == line && HeaderOf(line) == AddHeader(path) && StartsHunk(line)
  {
    MarkersDiffer();
    HeaderLine(ADD_FILE, path);
    NotPrefix(END_OF_FILE, ADD_FILE + path, 4);
  }

  lemma DeleteHeaderRead(path: string)
    requires HeaderPath(path)
    ensures var line := DELETE_FILE + path; TrimSpace(line) == line && HeaderOf(line) == DeleteHeader(path) && StartsHunk(line)
  {
    MarkersDiffer();
    HeaderLine(DELETE_FILE, path);
    NotPrefix(ADD_FILE, DELETE_FILE + path, 4);
    NotPrefix(END_OF_FILE, DELETE_FILE + path, 4);
  }

  lemma UpdateHeaderRead(path: string)
    requires HeaderPath(path)
    ensures var line := UPDATE_FILE + path; TrimSpace(line) == line && HeaderOf(line) == UpdateHeader(path) && StartsHunk(line)
  {
    MarkersDiffer();
    HeaderLine(UPDATE_FILE, path);
    NotPrefix(ADD_FILE, UPDATE_FILE + path, 4);
    NotPrefix(DELETE_FILE, UPDATE_FILE + path, 4);
    NotPrefix(END_OF_FILE, UPDATE_FILE + path, 4);
  }

  /** Each line followed by a newline, after what is there already. */
  function Unlines(contents: string, lines: Lines): string
    decreases |lines|
  {
    if lines == [] then contents else Unlines(contents + lines[0] + "\n", lines[1..])
  }

  lemma {:induction false} AddedReadBack(lines: Lines, i: nat, added: Lines, contents: string)
    requires Spells(lines, i, Tagged('+', added)) && HunkBoundary(lines, i + |added|)
    ensures ParsedAdded(lines, i, contents) == (Unlines(contents, added), i + |added|)
    decreases |added|
  {
    if added != [] {
      var rest := added[1..];
      TaggedHeadAndTail(lines, i, '+', added);
      AddedReadBack(lines, i + 1, rest, contents + added[0] + "\n");
    }
  }

  /** Writing the complete lines of contents gives the contents back. */
  lemma ContentsRestored(contents: string)
    requires contents == "" || contents[|contents| - 1] == '\n'
    ensures Unlines("", ContentLines(contents)) == contents
  {
    var ls := ContentLines(contents);
    SplitEndsBlank(contents);
    assert Split(contents) == ls + [""];
    UnlinesJoin("", ls);
    JoinSplit(contents);
  }

  lemma {:induction false} UnlinesJoin(contents: string, ls: Lines)
    ensures Unlines(contents, ls) == contents + Join(ls + [""])
    decreases |ls|
  {
    if ls == [] {
      assert ls + [""] == [""];
      assert contents + "" == contents;
    } else {
      var l, rest := ls[0], ls[1..];
      UnlinesJoin(contents + l + "\n", rest);
      assert (ls + [""])[1..] == rest + [""];
      var j := Join(rest + [""]);
      assert contents + l + "\n" + j == contents + (l + "\n" + j);
    }
  }

  lemma MoveLineRead(lines: Lines, at: nat, movePath: Option<string>, parts: seq<Lines>)
    requires parts != [] && parts[0] != [] && !Starred(parts[0][0])
    requires Spells(lines, at, MoveLines(movePath) + Flatten(parts))
    ensures MoveLine(lines, at) == movePath
    ensures Spells(lines, at + |MoveLines(movePath)|, Flatten(parts))
  {
    SpellsConcat(lines, at, MoveLines(movePath), Flatten(parts));
    if movePath.Some? {
      assert lines[at + 0] == MoveLines(movePath)[0];
    } else {
      assert lines[at + 0] == Flatten(parts)[0] == parts[0][0];
      assert lines[at] != "" ==> lines[at][0] != '*' == MOVE_TO[0];
    }
  }

  lemma AddReadBack(read: ChunkReader, lines: Lines, at: nat, path: string, contents: string)
    requires Advances(read, |lines|) && HeaderPath(path) && WellFormedContents(contents)
    requires Spells(lines, at, [ADD_FILE + path] + Tagged('+', ContentLines(contents)))
    requires HunkBoundary(lines, at + 1 + |ContentLines(contents)|)
    ensures ParsedHunk(read, lines, at) == Ok((AddFile(path, contents), at + 1 + |ContentLines(contents)|))
  {
    SpellsConcat(lines, at, [ADD_FILE + path], Tagged('+', ContentLines(contents)));
    assert lines[at + 0] == [ADD_FILE + path][0];
    AddedReadBack(lines, at + 1, ContentLines(contents), "");
    ContentsRestored(contents);
    AddHeaderRead(path);
  }

  lemma DeleteReadBack(read: ChunkReader, lines: Lines, at: nat, path: string)
    requires Advances(read, |lines|) && HeaderPath(path) && Spells(lines, at, [DELETE_FILE + path])
    ensures ParsedHunk(read, lines, at) == Ok((DeleteFile(path), at + 1))
  {
    assert lines[at + 0] == [DELETE_FILE + path][0];
    DeleteHeaderRead(path);
  }

  /** The reader reads the parts of an update as its chunks. */
  ghost predicate ReadsParts(read: ChunkReader, lines: Lines, parts: seq<Lines>, cs: seq<UpdateFileChunk>) {
    && Advances(read, |lines|) && StopsAtHunks(read, lines) && |parts| == |cs| > 0
    && forall k :: 0 <= k < |cs| ==> ReadsAsChunk(read, lines, parts[k], cs[k], true && k == 0)
  }

  lemma UpdatePartsRead(lines: Lines, chunks: seq<ChunkText>)
    requires WellFormedChunks(chunks) && ReadableChunks(chunks)
    ensures ReadsParts(ReadsChunk(lines), lines, ChunkParts(chunks), ChunksOf(chunks))
  {
    forall k | 0 <= k < |chunks|
      ensures ReadsAsChunk(ReadsChunk(lines), lines, ChunkParts(chunks)[k], ChunksOf(chunks)[k], true && k == 0)
    {
      PrintedChunkReads(lines, chunks[k], k == 0, ChunkParts(chunks)[k]);
    }
    UpdatesStopAtHunks(lines);
  }

  /** Where the chunks of a printed update start. */
  function ChunkStart(at: nat, movePath: Option<string>): (start: nat)
    ensures start == at + 1 + |MoveLines(movePath)|
  {
    if movePath.Some? then at + 2 else at + 1
  }

  lemma PartsParsed(read: ChunkReader, lines: Lines, start: nat, parts: seq<Lines>, cs: seq<UpdateFileChunk>)
    requires ReadsParts(read, lines, parts, cs)
    requires Spells(lines, start, Flatten(parts)) && HunkBoundary(lines, start + |Flatten(parts)|)
    ensures ParsedChunks(read, |lines|, start, []) == Ok((cs, start + |Flatten(parts)|))
  {
    var ends := ChunksReadBack(read, lines, start, parts, cs, true);
    ChunksCollected(read, |lines|, start, cs, ends, []);
    assert [] + cs == cs;
  }

  /** Wherever `part` stands before a boundary, it is read as the chunks of an update. */
  ghost predicate ReadsAsChunks(read: ChunkReader, lines: Lines, part: Lines, cs: seq<UpdateFileChunk>) {
    && Advances(read, |lines|) && cs != []
    && forall start: nat :: Spells(lines, start, part) && HunkBoundary(lines, start + |part|) ==>
         ParsedChunks(read, |lines|, start, []) == Ok((cs, start + |part|))
  }

  lemma PartsReadAsChunks(read: ChunkReader, lines: Lines, parts: seq<Lines>, cs: seq<UpdateFileChunk>, part: Lines)
    requires ReadsParts(read, lines, parts, cs) && part == Flatten(parts)
    ensures ReadsAsChunks(read, lines, part, cs)
  {
    forall start: nat | Spells(lines, start, part) && HunkBoundary(lines, start + |part|)
      ensures ParsedChunks(read, |lines|, start, []) == Ok((cs, start + |part|))
    {
      PartsParsed(read, lines, start, parts, cs);
    }
  }

  lemma UpdateDispatch(read: ChunkReader, lines: Lines, at: nat, path: string)
    requires Advances(read, |lines|) && at < |lines| && HeaderPath(path) && lines[at] == UPDATE_FILE + path
    ensures ParsedHunk(read, lines, at) == ParsedUpdate(read, lines, at, path)
  {
    UpdateHeaderRead(path);
  }

  /** The parts of a printed update stand one after another. */
  lemma UpdateSpelled(lines: Lines, at: nat, header: string, move: Lines, body: Lines)
    requires Spells(lines, at, [header] + move + body)
    ensures at < |lines| && lines[at] == header && Spells(lines, at + 1, move + body)
  {
    assert [header] + move + body == [header] + (move + body);
    SpellsConcat(lines, at, [header], move + body);
    assert lines[at + 0] == [header][0];
  }

  /** Where the header, the move line and the chunks of a printed update are found. */
  lemma UpdateFound(lines: Lines, at: nat, path: string, movePath: Option<string>, parts: seq<Lines>, part: Lines)
    requires parts != [] && parts[0] != [] && !Starred(parts[0][0])
    requires part == [UPDATE_FILE + path] + MoveLines(movePath) + Flatten(parts) && Spells(lines, at, part)
    ensures at < |lines| && lines[at] == UPDATE_FILE + path && MoveLine(lines, at + 1) == movePath
    ensures Spells(lines, ChunkStart(at, movePath), Flatten(parts))
    ensures at + |part| == ChunkStart(at, movePath) + |Flatten(parts)|
  {
    UpdateSpelled(lines, at, UPDATE_FILE + path, MoveLines(movePath), Flatten(parts));
    MoveLineRead(lines, at + 1, movePath, parts);
  }

  lemma UpdateReadBack(read: ChunkReader, lines: Lines, at: nat, path: string, movePath: Option<string>,
                       parts: seq<Lines>, cs: seq<UpdateFileChunk>, part: Lines)
    requires ReadsAsChunks(read, lines, Flatten(parts), cs) && HeaderPath(path)
    requires parts != [] && parts[0] != [] && !Starred(parts[0][0])
    requires part == [UPDATE_FILE + path] + MoveLines(movePath) + Flatten(parts)
    requires Spells(lines, at, part) && HunkBoundary(lines, at + |part|)
    ensures ParsedHunk(read, lines, at) == Ok((UpdateFile(path, movePath, cs), at + |part|))
  {
    UpdateFound(lines, at, path, movePath, parts, part);
    UpdateDispatch(read, lines, at, path);
  }

  /** Wherever `part` stands before a boundary, it is read as `h`. */
  ghost predicate ReadsAsHunk(read: HunkReader, lines: Lines, part: Lines, h: Hunk) {
    && part != [] && StartsHunk(part[0])
    && forall at: nat :: Spells(lines, at, part) && HunkBoundary(lines, at + |part|) ==> read(at) == Ok((h, at + |part|))
  }

  lemma PrintedAddReads(lines: Lines, path: string, contents: string)
    requires WellFormedHunk(AddText(path, contents))
    ensures ReadsAsHunk(ReadsHunk(lines), lines, [ADD_FILE + path] + Tagged('+', ContentLines(contents)), AddFile(path, contents))
  {
    AddHeaderRead(path);
    var part := [ADD_FILE + path] + Tagged('+', ContentLines(contents));
    forall at: nat | Spells(lines, at, part) && HunkBoundary(lines, at + |part|)
      ensures ReadsHunk(lines)(at) == Ok((AddFile(path, contents), at + |part|))
    {
      AddReadBack(ReadsChunk(lines), lines, at, path, contents);
    }
  }

  lemma PrintedDeleteReads(lines: Lines, path: string)
    requires HeaderPath(path)
    ensures ReadsAsHunk(ReadsHunk(lines), lines, [DELETE_FILE + path], DeleteFile(path))
  {
    DeleteHeaderRead(path);
    forall at: nat | Spells(lines, at, [DELETE_FILE + path])
      ensures ReadsHunk(lines)(at) == Ok((DeleteFile(path), at + 1))
    {
      DeleteReadBack(ReadsChunk(lines), lines, at, path);
    }
  }

  lemma UpdateReads(read: ChunkReader, hunks: HunkReader, lines: Lines, path: string, movePath: Option<string>,
                    parts: seq<Lines>, cs: seq<UpdateFileChunk>, part: Lines)
    requires ReadsAsChunks(read, lines, Flatten(parts), cs) && HeaderPath(path)
    requires parts != [] && parts[0] != [] && !Starred(parts[0][0])
    requires part == [UPDATE_FILE + path] + MoveLines(movePath) + Flatten(parts)
    requires forall at: nat :: hunks(at) == ParsedHunk(read, lines, at)
    ensures ReadsAsHunk(hunks, lines, part, UpdateFile(path, movePath, cs))
  {
    UpdateHeaderRead(path);
    forall at: nat | Spells(lines, at, part) && HunkBoundary(lines, at + |part|)
      ensures hunks(at) == Ok((UpdateFile(path, movePath, cs), at + |part|))
    {
      UpdateReadBack(read, lines, at, path, movePath, parts, cs, part);
    }
  }

  lemma PrintedChunksRead(lines: Lines, chunks: seq<ChunkText>)
    requires WellFormedChunks(chunks) && ReadableChunks(chunks)
    ensures ReadsAsChunks(ReadsChunk(lines), lines, PrintChunks(chunks), ChunksOf(chunks))
  {
    UpdatePartsRead(lines, chunks);
    PartsReadAsChunks(ReadsChunk(lines), lines, ChunkParts(chunks), ChunksOf(chunks), PrintChunks(chunks));
  }

  lemma PrintedUpdateReads(lines: Lines, path: string, movePath: Option<string>, chunks: seq<ChunkText>)
    requires WellFormedHunk(UpdateText(path, movePath, chunks)) && ReadableChunks(chunks)
    ensures ReadsAsHunk(ReadsHunk(lines), lines, [UPDATE_FILE + path] + MoveLines(movePath) + PrintChunks(chunks),
                        UpdateFile(path, movePath, ChunksOf(chunks)))
  {
    FirstLine(chunks[0], true);
    PrintedChunksRead(lines, chunks);
    UpdateReads(ReadsChunk(lines), ReadsHunk(lines), lines, path, movePath, ChunkParts(chunks), ChunksOf(chunks),
                [UPDATE_FILE + path] + MoveLines(movePath) + PrintChunks(chunks));
  }

  lemma PrintedHunkReads(lines: Lines, h: HunkText)
    requires WellFormedHunk(h) && ReadableHunk(h)
    ensures ReadsAsHunk(ReadsHunk(lines), lines, PrintHunk(h), HunkOf(h))
  {
    match h
    case AddText(path, contents) => PrintedAddReads(lines, path, contents);
    case DeleteText(path) => PrintedDeleteReads(lines, path);
    case UpdateText(path, movePath, chunks) => PrintedUpdateReads(lines, path, movePath, chunks);
  }

  /** Consecutive hunks that fill the lines are what the parser collects. */
  lemma {:induction false} HunksCollected(read: HunkReader, ends: seq<nat>, hunks: seq<Hunk>, n: nat, i: nat, done: seq<Hunk>)
    requires i <= n && HunksAdvance(read, n) && Partitions(read, ends, hunks, n, i)
    ensures ParsedHunks(read, n, i, done) == Ok(done + hunks)
    decreases |hunks|
  {
    if hunks == [] {
      assert done + hunks == done;
    } else {
      HunksCollected(read, ends[1..], hunks[1..], n, ends[0], done + [hunks[0]]);
      assert done + [hunks[0]] + hunks[1..] == done + hunks;
    }
  }

  /** Parts that read as hunks, one after another, read as the hunks. */
  lemma {:induction false} HunksReadBack(read: HunkReader, lines: Lines, i: nat, parts: seq<Lines>, hunks: seq<Hunk>)
    returns (ends: seq<nat>)
    requires |parts| == |hunks| && forall k :: 0 <= k < |hunks| ==> ReadsAsHunk(read, lines, parts[k], hunks[k])
    requires Spells(lines, i, Flatten(parts)) && i + |Flatten(parts)| == |lines|
    ensures Partitions(read, ends, hunks, |lines|, i)
    decreases |hunks|
  {
    if hunks == [] {
      ends := [];
    } else {
      var part, rest := parts[0], Flatten(parts[1..]);
      var end := i + |part|;
      SpellsConcat(lines, i, part, rest);
      assert HunkBoundary(lines, end) by {
        if |parts| > 1 {
          assert ReadsAsHunk(read, lines, parts[1], hunks[1]);
          assert lines[end + 0] == rest[0] == parts[1][0];
        }
      }
      var tail := HunksReadBack(read, lines, end, parts[1..], hunks[1..]);
      ends := [end] + tail;
      assert ends[1..] == tail;
    }
  }

  // ----- The envelope

  lemma IdLineRead(id: string)
    requires HeaderPath(id) && !IsSpace(id[0])
    ensures CutPrefix(TrimStart(ENVIRONMENT_ID + id), ENVIRONMENT_ID) == Some(id) && TrimSpace(id) == id
  {
    var line := ENVIRONMENT_ID + id;
    assert TrimStart(line) == line;
    assert line[|ENVIRONMENT_ID|..] == id;
    TrimNothing(id);
  }

  lemma PreambleReadBack(id: Option<string>, hunks: seq<HunkText>)
    requires WellFormedId(id) && WellFormedHunks(hunks)
    ensures ParsedPreamble(PrintBody(id, hunks)) == Ok(id)
  {
    var lines := PrintBody(id, hunks);
    if id.Some? {
      assert lines[1] == IdLines(id)[0];
      IdLineRead(id.value);
    } else if hunks != [] {
      HeaderIsNoId(hunks[0]);
      assert HunkParts(hunks)[0] == PrintHunk(hunks[0]);
      assert lines[1] == PrintHunks(hunks)[0] == PrintHunk(hunks[0])[0];
    } else {
      assert |lines| == 1;
    }
  }

  /** A header line differs from an environment id line in its fifth character. */
  lemma HeaderIsNoId(h: HunkText)
    requires WellFormedHunk(h)
    ensures |PrintHunk(h)| > 0 && CutPrefix(TrimStart(PrintHunk(h)[0]), ENVIRONMENT_ID).None?
  {
    var header := match h
                  case AddText(_, _) => ADD_FILE
                  case DeleteText(_) => DELETE_FILE
                  case UpdateText(_, _, _) => UPDATE_FILE;
    assert PrintHunk(h)[0] == header + h.path;
    NoIdPrefix(header, h.path);
  }

  lemma NoIdPrefix(header: string, path: string)
    requires |header| > 4 && header[0] == '*' && header[4] != 'E'
    ensures CutPrefix(TrimStart(header + path), ENVIRONMENT_ID).None?
  {
    var line := header + path;
    assert line[0] == '*';
    assert TrimStart(line) == line;
    assert line[4] == header[4] != ENVIRONMENT_ID[4];
  }

  lemma HunkLinesReadBack(lines: Lines, start: nat, hunks: seq<HunkText>)
    requires WellFormedHunks(hunks) && AllReadable(hunks) && Spells(lines, start, PrintHunks(hunks)) && start + |PrintHunks(hunks)| == |lines|
    ensures ParsedHunks(ReadsHunk(lines), |lines|, start, []) == Ok(HunksOf(hunks))
  {
    forall k | 0 <= k < |hunks|
      ensures ReadsAsHunk(ReadsHunk(lines), lines, HunkParts(hunks)[k], HunksOf(hunks)[k])
    {
      PrintedHunkReads(lines, hunks[k]);
    }
    var said := HunksOf(hunks);
    var ends := HunksReadBack(ReadsHunk(lines), lines, start, HunkParts(hunks), said);
    HunksCollected(ReadsHunk(lines), ends, said, |lines|, start, []);
    assert [] + said == said;
  }

  /** Where the hunk lines of a printed patch start. */
  function HunkStart(id: Option<string>): nat {
    if id.Some? then 2 else 1
  }

  /** The lines of a well-formed spelling are read by their id and then by their hunk lines. */
  lemma LinesRead(id: Option<string>, hunks: seq<HunkText>)
    requires WellFormedId(id) && WellFormedHunks(hunks)
    ensures |PrintLines(id, hunks)| >= 2 && HunkStart(id) <= |PrintBody(id, hunks)|
    ensures Spells(PrintBody(id, hunks), HunkStart(id), PrintHunks(hunks))
    ensures HunkStart(id) + |PrintHunks(hunks)| == |PrintBody(id, hunks)|
    ensures var lines := PrintBody(id, hunks);
            ParsedLines(PrintLines(id, hunks)) ==
            match ParsedHunks(ReadsHunk(lines), |lines|, HunkStart(id), [])
            case Err(e) => Err(e)
            case Ok(said) => Ok(ParseResult(Print(id, hunks), said, id))
  {
    assert BodyLines(PrintLines(id, hunks)) == PrintBody(id, hunks);
    PreambleReadBack(id, hunks);
  }

  lemma MarkersTrim()
    ensures TrimSpace(BEGIN_PATCH) == BEGIN_PATCH && TrimSpace(END_PATCH) == END_PATCH
  {
    TrimNothing(BEGIN_PATCH);
    TrimNothing(END_PATCH);
  }

  lemma BoundariesReadBack(id: Option<string>, hunks: seq<HunkText>)
    ensures BoundaryError(PrintLines(id, hunks)).None?
  {
    Enclosed(PrintBody(id, hunks));
  }

  lemma Enclosed(body: Lines)
    requires body != [] && body[0] == BEGIN_PATCH
    ensures BoundaryError(body + [END_PATCH]).None?
  {
    var lines := body + [END_PATCH];
    assert lines[0] == BEGIN_PATCH && lines[|lines| - 1] == END_PATCH;
    MarkersTrim();
  }

  // ----- From text to lines

  lemma ContentsPlain(contents: string)
    ensures PlainLines(Tagged('+', ContentLines(contents)))
  {
    SplitHasNoNewline(contents);
  }

  lemma ChunkPlain(c: ChunkText, first: bool)
    requires WellFormedChunk(c, first)
    ensures PlainLines(PrintChunk(c))
  {
    ConcatPlain(MarkLines(c.mark), BodyText(c.body));
    ConcatPlain(MarkLines(c.mark) + BodyText(c.body), EofLines(c));
  }

  lemma {:induction false} FlattenPlain(parts: seq<Lines>)
    requires forall i :: 0 <= i < |parts| ==> PlainLines(parts[i])
    ensures PlainLines(Flatten(parts))
  {
    if parts != [] {
      FlattenPlain(parts[1..]);
    }
  }

  lemma ChunksPlain(cs: seq<ChunkText>)
    requires WellFormedChunks(cs)
    ensures PlainLines(PrintChunks(cs))
  {
    forall i | 0 <= i < |cs|
      ensures PlainLines(ChunkParts(cs)[i])
    {
      ChunkPlain(cs[i], i == 0);
    }
    FlattenPlain(ChunkParts(cs));
  }

  lemma HunkPlain(h: HunkText)
    requires WellFormedHunk(h)
    ensures PlainLines(PrintHunk(h))
  {
    match h
    case AddText(path, contents) =>
      ContentsPlain(contents);
      HeaderedPlain(ADD_FILE + path, Tagged('+', ContentLines(contents)));
    case DeleteText(_) =>
    case UpdateText(path, movePath, chunks) =>
      ChunksPlain(chunks);
      HeaderedPlain(UPDATE_FILE + path, MoveLines(movePath));
      ConcatPlain([UPDATE_FILE + path] + MoveLines(movePath), PrintChunks(chunks));
  }

  lemma HeaderedPlain(header: string, lines: Lines)
    requires NoNewline(header) && PlainLines(lines)
    ensures PlainLines([header] + lines)
  {
  }

  lemma HunksPlain(hunks: seq<HunkText>)
    requires WellFormedHunks(hunks)
    ensures PlainLines(PrintHunks(hunks))
  {
    forall i | 0 <= i < |hunks|
      ensures PlainLines(HunkParts(hunks)[i])
    {
      HunkPlain(hunks[i]);
    }
    FlattenPlain(HunkParts(hunks));
  }

  lemma ConcatPlain(p: Lines, q: Lines)
    requires PlainLines(p) && PlainLines(q)
    ensures PlainLines(p + q)
  {
  }

  lemma PatchPlain(id: Option<string>, hunks: seq<HunkText>)
    requires WellFormedId(id) && WellFormedHunks(hunks)
    ensures PlainLines(PrintLines(id, hunks))
  {
    ConcatPlain([BEGIN_PATCH], IdLines(id));
    HunksPlain(hunks);
    ConcatPlain([BEGIN_PATCH] + IdLines(id), PrintHunks(hunks));
    ConcatPlain(PrintBody(id, hunks), [END_PATCH]);
  }

  /** A carriage return after a line leaves its start alone. */
  lemma WrittenEnds(raw: Lines, lines: Lines)
    requires Written(raw, lines) && lines[0] != "" && lines[|lines| - 1] != ""
    ensures raw[0] != "" && raw[0][0] == lines[0][0] && raw[|raw| - 1] == lines[|lines| - 1]
  {
    assert lines[0] == StripReturn(raw[0]);
  }

  lemma WrittenSplit(raw: Lines, lines: Lines)
    requires Written(raw, lines) && lines[|lines| - 1] != "" && Join(raw) != ""
    ensures SplitLines(Join(raw)) == lines
  {
    SplitJoin(raw);
    LinesSplit(Join(raw), raw);
  }

  /** The text of lines that neither start nor end with whitespace. */
  lemma TextOfLines(raw: Lines, s: string)
    requires raw != [] && raw[0] != "" && raw[|raw| - 1] != "" && s == Join(raw)
    requires !IsSpace(raw[0][0]) && var last := raw[|raw| - 1]; !IsSpace(last[|last| - 1])
    ensures s != "" && !IsSpace(s[0]) && !IsSpace(s[|s| - 1])
  {
    JoinEnds(raw);
  }

  lemma TrimmedText(raw: Lines, left: string, right: string)
    requires raw != [] && raw[0] != "" && raw[|raw| - 1] != ""
    requires !IsSpace(raw[0][0]) && var last := raw[|raw| - 1]; !IsSpace(last[|last| - 1])
    requires AllSpace(left) && AllSpace(right)
    ensures Join(raw) != "" && TrimSpace(left + Join(raw) + right) == Join(raw)
  {
    var s := Join(raw);
    TextOfLines(raw, s);
    TrimSurrounded(left, s, right);
  }

  /** Such lines come back from any text of theirs with whitespace around it. */
  lemma LinesOfText(raw: Lines, lines: Lines, left: string, right: string)
    requires Written(raw, lines) && lines[0] != "" && lines[|lines| - 1] != ""
    requires !IsSpace(lines[0][0]) && var last := lines[|lines| - 1]; !IsSpace(last[|last| - 1])
    requires AllSpace(left) && AllSpace(right)
    ensures SplitLines(TrimSpace(left + Join(raw) + right)) == lines
  {
    WrittenEnds(raw, lines);
    TrimmedText(raw, left, right);
    WrittenSplit(raw, lines);
  }

  lemma LinesSplit(s: string, raw: Lines)
    requires s != "" && Split(s) == raw && raw[|raw| - 1] != ""
    ensures SplitLines(s) == StripReturns(raw)
  {
  }

  lemma {:induction false} JoinEnds(lines: Lines)
    requires lines != [] && lines[0] != "" && lines[|lines| - 1] != ""
    ensures var s := Join(lines); var last := lines[|lines| - 1];
            s != "" && s[0] == lines[0][0] && s[|s| - 1] == last[|last| - 1]
  {
    if |lines| > 1 {
      JoinLast(lines[1..]);
    }
  }

  lemma {:induction false} JoinLast(lines: Lines)
    requires lines != [] && lines[|lines| - 1] != ""
    ensures var s := Join(lines); var last := lines[|lines| - 1];
            s != "" && s[|s| - 1] == last[|last| - 1]
  {
    if |lines| > 1 {
      JoinLast(lines[1..]);
    }
  }

  /** The lines of any text of an enclosed patch. */
  lemma EnclosedRead(body: Lines, raw: Lines, left: string, right: string, mode: ParseMode)
    requires body != [] && body[0] == BEGIN_PATCH && Written(raw, body + [END_PATCH]) && AllSpace(left) && AllSpace(right)
    ensures BodyLines(body + [END_PATCH]) == body
    ensures ParsedPatch(left + Join(raw) + right, mode) == ParsedLines(body + [END_PATCH])
  {
    LinesOfText(raw, body + [END_PATCH], left, right);
    Enclosed(body);
  }

  /** Any text of the lines of a well-formed spelling, with any whitespace around it, is parsed from these lines, in either mode. */
  lemma PrintedLinesRead(id: Option<string>, hunks: seq<HunkText>, raw: Lines, left: string, right: string, mode: ParseMode)
    requires Written(raw, PrintLines(id, hunks)) && AllSpace(left) && AllSpace(right)
    ensures |PrintLines(id, hunks)| >= 2
    ensures ParsedPatch(left + Join(raw) + right, mode) == ParsedLines(PrintLines(id, hunks))
  {
    EnclosedRead(PrintBody(id, hunks), raw, left, right, mode);
  }

  /** The lines of a heredoc around a patch. */
  function Wrapped(open: string, lines: Lines, close: string): Lines {
    [open] + lines + [close + "EOF"]
  }

  /** Inside a heredoc it is parsed from its lines in lenient mode, and refused in strict mode. */
  lemma WrappedLinesRead(id: Option<string>, hunks: seq<HunkText>, open: string, close: string, raw: Lines, left: string, right: string)
    requires OpensHeredoc(open) && Written(raw, Wrapped(open, PrintLines(id, hunks), close))
    requires AllSpace(left) && AllSpace(right)
    ensures |PrintLines(id, hunks)| >= 2
    ensures var text := left + Join(raw) + right;
            && ParsedPatch(text, Lenient) == ParsedLines(PrintLines(id, hunks))
            && ParsedPatch(text, Strict) == Err(BadFirstLine)
  {
    BoundariesReadBack(id, hunks);
    WrappedLines(open, PrintLines(id, hunks), close, raw, left, right);
  }

  /** A heredoc around a patch is unwrapped, leniently only. */
  lemma WrappedLines(open: string, inner: Lines, close: string, raw: Lines, left: string, right: string)
    requires OpensHeredoc(open) && Written(raw, Wrapped(open, inner, close)) && AllSpace(left) && AllSpace(right)
    requires |inner| >= 2 && BoundaryError(inner).None?
    ensures var lines := SplitLines(TrimSpace(left + Join(raw) + right));
            PatchLines(lines, Lenient) == Ok(inner) && PatchLines(lines, Strict) == Err(BadFirstLine)
  {
    HeredocOpening(open);
    WrappedEnds(open, inner, close);
    LinesOfText(raw, Wrapped(open, inner, close), left, right);
    HeredocRecognised(open, inner, close);
    Unwrapped(Wrapped(open, inner, close), inner);
  }

  lemma WrappedEnds(open: string, inner: Lines, close: string)
    ensures var lines := Wrapped(open, inner, close); lines[0] == open && lines[|lines| - 1] == close + "EOF"
  {
  }

  lemma Unwrapped(lines: Lines, inner: Lines)
    requires IsHeredoc(lines) && BoundaryError(lines) == Some(BadFirstLine)
    requires lines[1..|lines| - 1] == inner && BoundaryError(inner).None?
    ensures PatchLines(lines, Lenient) == Ok(inner) && PatchLines(lines, Strict) == Err(BadFirstLine)
  {
  }

  lemma HeredocOpening(open: string)
    requires OpensHeredoc(open)
    ensures open != "" && open[0] == '<' && !IsSpace('<') && !IsSpace(open[|open| - 1])
  {
  }

  lemma HeredocRecognised(open: string, inner: Lines, close: string)
    requires OpensHeredoc(open) && |inner| >= 2
    ensures var lines := Wrapped(open, inner, close);
            IsHeredoc(lines) && BoundaryError(lines) == Some(BadFirstLine) && lines[1..|lines| - 1] == inner
  {
    var lines := Wrapped(open, inner, close);
    assert lines[0] == open && lines[|lines| - 1] == close + "EOF";
    assert (close + "EOF")[|close|..] == "EOF";
    HeredocOpening(open);
    TrimNothing(open);
    assert open[0] == '<' != BEGIN_PATCH[0];
  }
}
