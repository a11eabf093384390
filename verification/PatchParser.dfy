/**
 Parsing a patch envelope (internal/applypatch/parser.go). The `Parsed...`
 functions read the lines of a patch from a given position and return the
 position after what they read; the methods below them are the loops of the
 program, which cut lines off and count line numbers as they go.
 */
module PatchParser {

  import opened PatchTypes
  import opened LineText
  import opened Whitespace

  type Lines = seq<string>

  const BEGIN_PATCH := "*** Begin Patch"
  const ENVIRONMENT_ID := "*** Environment ID: "
  const END_PATCH := "*** End Patch"
  const ADD_FILE := "*** Add File: "
  const DELETE_FILE := "*** Delete File: "
  const UPDATE_FILE := "*** Update File: "
  const MOVE_TO := "*** Move to: "
  const END_OF_FILE := "*** End of File"
  const CHANGE_CONTEXT := "@@ "
  const EMPTY_CHANGE_CONTEXT := "@@"

  datatype ParseError =
    | BadFirstLine
    | BadLastLine
    | EmptyEnvironmentId
    | BadHeader(line: string, lineNumber: nat)
    | EmptyUpdate(path: string, lineNumber: nat)
    | MissingContext(line: string, lineNumber: nat)
    | NoChangeLines(lineNumber: nat)
    | UnexpectedLine(line: string, lineNumber: nat)

  function CutPrefix(s: string, prefix: string): Option<string> {
    if prefix <= s then Some(s[|prefix|..]) else None
  }

  // ----- One chunk

  /** What a line of a chunk is: the End-of-File marker, a change line with what it adds to both sides, or neither. */
  datatype BodyLine = Marker | Change(olds: Lines, news: Lines) | Other

  function BodyLineOf(line: string): BodyLine {
    if line == END_OF_FILE then Marker
    else if line == "" then Change([""], [""])
    else if line[0] == ' ' then Change([line[1..]], [line[1..]])
    else if line[0] == '+' then Change([], [line[1..]])
    else if line[0] == '-' then Change([line[1..]], [])
    else Other
  }

  /** The kind of the line at a position. */
  type BodyReader = nat -> BodyLine

  function ReadsBody(lines: Lines): (read: BodyReader)
    ensures ChangesNonEmpty(read)
  {
    (i: nat) => if i < |lines| then BodyLineOf(lines[i]) else Other
  }

  ghost predicate ChangesNonEmpty(read: BodyReader) {
    forall i: nat :: read(i).Change? ==> read(i).olds != [] || read(i).news != []
  }

  function Extend(chunk: UpdateFileChunk, line: BodyLine): UpdateFileChunk
    requires line.Change?
  {
    chunk.(oldLines := chunk.oldLines + line.olds, newLines := chunk.newLines + line.news)
  }

  predicate NonEmpty(chunk: UpdateFileChunk) {
    chunk.oldLines != [] || chunk.newLines != []
  }

  /** The change lines from `i` on, of a chunk that starts on line `at` and whose change lines start at `from`. */
  function ParsedBody(read: BodyReader, lines: Lines, at: nat, from: nat, i: nat, chunk: UpdateFileChunk): (r: Result<(UpdateFileChunk, nat), ParseError>)
    requires at <= from <= i <= |lines|
    ensures r.Ok? ==> i <= r.value.1 <= |lines|
    ensures r.Ok? && from < |lines| ==> from < r.value.1
    decreases |lines| - i
  {
    if i == |lines| then Ok((chunk, i))
    else
      match read(i)
      case Marker =>
        if i == from then Err(NoChangeLines(at + 2)) else Ok((chunk.(isEndOfFile := true), i + 1))
      case Change(_, _) => ParsedBody(read, lines, at, from, i + 1, Extend(chunk, read(i)))
      case Other =>
        if i == from then Err(UnexpectedLine(lines[i], at + 2)) else Ok((chunk, i))
  }

  predicate IsContextLine(line: string) {
    line == EMPTY_CHANGE_CONTEXT || CHANGE_CONTEXT <= line
  }

  function ContextOf(line: string): Option<string> {
    if line == EMPTY_CHANGE_CONTEXT then None else CutPrefix(line, CHANGE_CONTEXT)
  }

  /** One chunk, which takes at least one line. */
  function ParsedChunk(read: BodyReader, lines: Lines, at: nat, allowMissingContext: bool): (r: Result<(UpdateFileChunk, nat), ParseError>)
    ensures r.Ok? ==> at < r.value.1 <= |lines|
  {
    if at >= |lines| then Err(NoChangeLines(at + 1))
    else if IsContextLine(lines[at]) then
      if at + 1 == |lines| then Err(NoChangeLines(at + 2))
      else ParsedBody(read, lines, at, at + 1, at + 1, UpdateFileChunk(ContextOf(lines[at]), [], [], false))
    else if !allowMissingContext then Err(MissingContext(lines[at], at + 1))
    else ParsedBody(read, lines, at, at, at, UpdateFileChunk(None, [], [], false))
  }

  // ----- One hunk

  predicate IsBlank(line: string) {
    TrimSpace(line) == ""
  }

  predicate Starred(line: string) {
    line != "" && line[0] == '*'
  }

  /** What the chunk loop finds on a line: a blank line, the next hunk, a chunk and its end, or an error. */
  datatype ChunkStep = Skip | Stop | Take(chunk: UpdateFileChunk, end: nat) | Fail(error: ParseError)

  function StepAt(lines: Lines, at: nat, first: bool): (r: ChunkStep)
    ensures r.Take? ==> at < r.end <= |lines|
  {
    if at < |lines| && IsBlank(lines[at]) then Skip
    else if at < |lines| && Starred(lines[at]) then Stop
    else
      match ParsedChunk(ReadsBody(lines), lines, at, first)
      case Ok((chunk, end)) => Take(chunk, end)
      case Err(e) => Fail(e)
  }

  /** What there is at a position; the flag says whether a chunk there would be the first of its update. */
  type ChunkReader = (nat, bool) -> ChunkStep

  function ReadsChunk(lines: Lines): (read: ChunkReader)
    ensures Advances(read, |lines|)
  {
    (at: nat, first: bool) => StepAt(lines, at, first)
  }

  ghost predicate Advances(read: ChunkReader, n: nat) {
    forall at: nat, first: bool :: read(at, first).Take? ==> at < read(at, first).end <= n
  }

  /** The chunks of an update from `i` on, after the chunks so far. */
  function ParsedChunks(read: ChunkReader, n: nat, i: nat, chunks: seq<UpdateFileChunk>): (r: Result<(seq<UpdateFileChunk>, nat), ParseError>)
    requires i <= n && Advances(read, n)
    ensures r.Ok? ==> i <= r.value.1 <= n
    decreases n - i
  {
    if i == n then Ok((chunks, i))
    else
      match read(i, chunks == [])
      case Skip => ParsedChunks(read, n, i + 1, chunks)
      case Stop => Ok((chunks, i))
      case Take(chunk, end) => ParsedChunks(read, n, end, chunks + [chunk])
      case Fail(e) => Err(e)
  }

  predicate IsAdded(line: string) {
    line != "" && line[0] == '+'
  }

  /** The contents that the added lines from `i` on make up, and where they end. */
  function ParsedAdded(lines: Lines, i: nat, contents: string): (r: (string, nat))
    requires i <= |lines|
    ensures i <= r.1 <= |lines|
    decreases |lines| - i
  {
    if i == |lines| || !IsAdded(lines[i]) then (contents, i)
    else ParsedAdded(lines, i + 1, contents + lines[i][1..] + "\n")
  }

  datatype Header = AddHeader(path: string) | DeleteHeader(path: string) | UpdateHeader(path: string) | NoHeader

  function HeaderOf(line: string): Header {
    if ADD_FILE <= line then AddHeader(line[|ADD_FILE|..])
    else if DELETE_FILE <= line then DeleteHeader(line[|DELETE_FILE|..])
    else if UPDATE_FILE <= line then UpdateHeader(line[|UPDATE_FILE|..])
    else NoHeader
  }

  /** The move destination on line `i`, if there is one. */
  function MoveLine(lines: Lines, i: nat): Option<string> {
    if i < |lines| then CutPrefix(lines[i], MOVE_TO) else None
  }

  /** The rest of an update whose header is on line `at`. */
  function ParsedUpdate(read: ChunkReader, lines: Lines, at: nat, path: string): (r: Result<(Hunk, nat), ParseError>)
    requires at < |lines| && Advances(read, |lines|)
    ensures r.Ok? ==> at < r.value.1 <= |lines|
  {
    var movePath := MoveLine(lines, at + 1);
    var chunks := ParsedChunks(read, |lines|, if movePath.Some? then at + 2 else at + 1, []);
    if chunks.Err? then Err(chunks.error)
    else if chunks.value.0 == [] then Err(EmptyUpdate(path, at + 1))
    else Ok((UpdateFile(path, movePath, chunks.value.0), chunks.value.1))
  }

  /** One hunk, which takes at least one line. */
  function ParsedHunk(read: ChunkReader, lines: Lines, at: nat): (r: Result<(Hunk, nat), ParseError>)
    requires Advances(read, |lines|)
    ensures r.Ok? ==> at < r.value.1 <= |lines|
  {
    if at >= |lines| then Err(BadHeader("", at + 1))
    else match HeaderOf(TrimSpace(lines[at]))
    case AddHeader(path) =>
      var added := ParsedAdded(lines, at + 1, "");
      Ok((AddFile(path, added.0), added.1))
    case DeleteHeader(path) => Ok((DeleteFile(path), at + 1))
    case UpdateHeader(path) => ParsedUpdate(read, lines, at, path)
    case NoHeader => Err(BadHeader(TrimSpace(lines[at]), at + 1))
  }

  type HunkReader = nat -> Result<(Hunk, nat), ParseError>

  function ReadsHunk(lines: Lines): (read: HunkReader)
    ensures HunksAdvance(read, |lines|)
  {
    at => ParsedHunk(ReadsChunk(lines), lines, at)
  }

  ghost predicate HunksAdvance(read: HunkReader, n: nat) {
    forall at: nat :: at < n && read(at).Ok? ==> at < read(at).value.1 <= n
  }

  /** All hunks from `i` to `n`, after those so far. */
  function ParsedHunks(read: HunkReader, n: nat, i: nat, hunks: seq<Hunk>): Result<seq<Hunk>, ParseError>
    requires i <= n && HunksAdvance(read, n)
    decreases n - i
  {
    if i == n then Ok(hunks)
    else
      var one := read(i);
      if one.Err? then Err(one.error) else ParsedHunks(read, n, one.value.1, hunks + [one.value.0])
  }

  // ----- The envelope

  /** The lines of a text, without line ends; a final newline does not start another line. */
  function SplitLines(s: string): Lines {
    if s == "" then []
    else
      var raw := Split(s);
      StripReturns(if raw[|raw| - 1] == "" then raw[..|raw| - 1] else raw)
  }

  function StripReturn(line: string): string {
    if line != "" && line[|line| - 1] == '\r' then line[..|line| - 1] else line
  }

  function StripReturns(lines: Lines): (r: Lines)
    ensures |r| == |lines|
    ensures forall i :: 0 <= i < |lines| ==> r[i] == StripReturn(lines[i])
  {
    if lines == [] then [] else [StripReturn(lines[0])] + StripReturns(lines[1..])
  }

  datatype ParseMode = Strict | Lenient

  /** Checks the first and the last line. */
  function BoundaryError(lines: Lines): Option<ParseError> {
    if lines != [] && TrimSpace(lines[0]) == BEGIN_PATCH && TrimSpace(lines[|lines| - 1]) == END_PATCH then None
    else if lines != [] && TrimSpace(lines[0]) != BEGIN_PATCH then Some(BadFirstLine)
    else Some(BadLastLine)
  }

  predicate OpensHeredoc(line: string) {
    line == "<<EOF" || line == "<<'EOF'" || line == "<<\"EOF\""
  }

  predicate HasSuffix(s: string, suffix: string) {
    |s| >= |suffix| && s[|s| - |suffix|..] == suffix
  }

  predicate IsHeredoc(lines: Lines) {
    |lines| >= 4 && OpensHeredoc(lines[0]) && HasSuffix(lines[|lines| - 1], "EOF")
  }

  /** The patch lines proper: the text itself or, leniently, what a heredoc wraps. */
  function PatchLines(lines: Lines, mode: ParseMode): (r: Result<Lines, ParseError>)
    ensures r.Ok? ==> |r.value| >= 2
  {
    var e := BoundaryError(lines);
    if e.None? then
      BoundariesApart(lines);
      Ok(lines)
    else if mode == Lenient && IsHeredoc(lines) then
      var inner := lines[1..|lines| - 1];
      var e' := BoundaryError(inner);
      if e'.None? then BoundariesApart(inner); Ok(inner) else Err(e'.value)
    else Err(e.value)
  }

  /** A line cannot be both markers, so a checked envelope has at least two lines. */
  lemma BoundariesApart(lines: Lines)
    requires BoundaryError(lines).None?
    ensures |lines| >= 2
  {
    assert BEGIN_PATCH[4] != END_PATCH[4];
  }

  /** The environment id on line `1`, if there is one. */
  function ParsedPreamble(lines: Lines): Result<Option<string>, ParseError> {
    if |lines| <= 1 then Ok(None)
    else
      var rest := CutPrefix(TrimStart(lines[1]), ENVIRONMENT_ID);
      if rest.None? then Ok(None)
      else if TrimSpace(rest.value) == "" then Err(EmptyEnvironmentId)
      else Ok(Some(TrimSpace(rest.value)))
  }

  datatype ParseResult = ParseResult(patch: string, hunks: seq<Hunk>, environmentId: Option<string>)

  /** The patch without its last line; line `i` of it has number `i + 1`. */
  function BodyLines(patchLines: Lines): Lines
    requires |patchLines| >= 2
  {
    patchLines[..|patchLines| - 1]
  }

  /** A patch given as its lines. */
  function ParsedLines(patchLines: Lines): Result<ParseResult, ParseError>
    requires |patchLines| >= 2
  {
    var lines := BodyLines(patchLines);
    var id := ParsedPreamble(lines);
    if id.Err? then Err(id.error)
    else
      var hunks := ParsedHunks(ReadsHunk(lines), |lines|, if id.value.Some? then 2 else 1, []);
      if hunks.Err? then Err(hunks.error) else Ok(ParseResult(Join(patchLines), hunks.value, id.value))
  }

  function ParsedPatch(text: string, mode: ParseMode): Result<ParseResult, ParseError> {
    var patchLines := PatchLines(SplitLines(TrimSpace(text)), mode);
    if patchLines.Err? then Err(patchLines.error) else ParsedLines(patchLines.value)
  }

  // ----- No empty chunks

  lemma {:induction false} BodyNonEmpty(read: BodyReader, lines: Lines, at: nat, from: nat, i: nat, chunk: UpdateFileChunk)
    requires at <= from <= i <= |lines| && (from < i ==> NonEmpty(chunk)) && ChangesNonEmpty(read)
    ensures var r := ParsedBody(read, lines, at, from, i, chunk); r.Ok? && from < |lines| ==> NonEmpty(r.value.0)
    decreases |lines| - i
  {
    if i < |lines| && read(i).Change? {
      BodyNonEmpty(read, lines, at, from, i + 1, Extend(chunk, read(i)));
    }
  }

  lemma ChunkNonEmpty(lines: Lines, at: nat, allowMissingContext: bool)
    ensures var r := ParsedChunk(ReadsBody(lines), lines, at, allowMissingContext); r.Ok? ==> NonEmpty(r.value.0)
  {
    if at < |lines| {
      BodyNonEmpty(ReadsBody(lines), lines, at, at, at, UpdateFileChunk(None, [], [], false));
      BodyNonEmpty(ReadsBody(lines), lines, at, at + 1, at + 1, UpdateFileChunk(ContextOf(lines[at]), [], [], false));
    }
  }

  lemma {:induction false} ChunksNonEmpty(read: ChunkReader, n: nat, i: nat, chunks: seq<UpdateFileChunk>)
    requires i <= n && Advances(read, n)
    requires forall at: nat, first: bool :: read(at, first).Take? ==> NonEmpty(read(at, first).chunk)
    requires forall c :: c in chunks ==> NonEmpty(c)
    ensures var r := ParsedChunks(read, n, i, chunks); r.Ok? ==> forall c :: c in r.value.0 ==> NonEmpty(c)
    decreases n - i
  {
    if i < n {
      match read(i, chunks == [])
      case Skip => ChunksNonEmpty(read, n, i + 1, chunks);
      case Take(chunk, end) => ChunksNonEmpty(read, n, end, chunks + [chunk]);
      case Stop =>
      case Fail(_) =>
    }
  }

  /** An update has at least one chunk, and every chunk has at least one line. */
  lemma UpdatesNonEmpty(lines: Lines, at: nat)
    ensures var r := ParsedHunk(ReadsChunk(lines), lines, at);
            r.Ok? && r.value.0.UpdateFile? ==> r.value.0.chunks != [] && forall c :: c in r.value.0.chunks ==> NonEmpty(c)
  {
    if at < |lines| {
      forall i: nat, first: bool
        ensures var r := ReadsChunk(lines)(i, first); r.Take? ==> NonEmpty(r.chunk)
      {
        ChunkNonEmpty(lines, i, first);
      }
      ChunksNonEmpty(ReadsChunk(lines), |lines|, if MoveLine(lines, at + 1).Some? then at + 2 else at + 1, []);
    }
  }

  // ----- Line numbers

  /**
   Where an error says it is. A bad header, an empty update and a missing
   context marker are reported at the exact line. An unexpected line is reported
   exactly if its chunk has a context line, and one line too late if it has none.
   */
  predicate Located(e: ParseError, lines: Lines) {
    match e
    case BadHeader(line, n) => 0 < n <= |lines| && TrimSpace(lines[n - 1]) == line
    case EmptyUpdate(path, n) => 0 < n <= |lines| && HeaderOf(TrimSpace(lines[n - 1])) == UpdateHeader(path)
    case MissingContext(line, n) => 0 < n <= |lines| && lines[n - 1] == line && !IsContextLine(line)
    case NoChangeLines(n) => 1 < n <= |lines| + 1 && IsContextLine(lines[n - 2])
    case UnexpectedLine(line, n) =>
      && 1 < n <= |lines| + 1 && BodyLineOf(line).Other?
      && if IsContextLine(lines[n - 2]) then n <= |lines| && lines[n - 1] == line else lines[n - 2] == line
    case _ => false
  }

  /** Only the first change line of a chunk can be an error. */
  lemma {:induction false} BodyErrors(read: BodyReader, lines: Lines, at: nat, from: nat, i: nat, chunk: UpdateFileChunk)
    requires at <= from <= i <= |lines|
    ensures var r := ParsedBody(read, lines, at, from, i, chunk);
            r.Err? ==> i == from < |lines| && !read(i).Change? &&
                       r.error == if read(i).Marker? then NoChangeLines(at + 2) else UnexpectedLine(lines[i], at + 2)
    decreases |lines| - i
  {
    if i < |lines| && read(i).Change? {
      BodyErrors(read, lines, at, from, i + 1, Extend(chunk, read(i)));
    }
  }

  lemma ChunkErrorLocated(lines: Lines, at: nat, allowMissingContext: bool)
    requires at < |lines| && !Starred(lines[at])
    ensures var r := ParsedChunk(ReadsBody(lines), lines, at, allowMissingContext); r.Err? ==> Located(r.error, lines)
  {
    if IsContextLine(lines[at]) {
      BodyErrors(ReadsBody(lines), lines, at, at + 1, at + 1, UpdateFileChunk(ContextOf(lines[at]), [], [], false));
    } else {
      assert Starred(END_OF_FILE);
      BodyErrors(ReadsBody(lines), lines, at, at, at, UpdateFileChunk(None, [], [], false));
    }
  }

  lemma {:induction false} ChunksErrorLocated(read: ChunkReader, lines: Lines, i: nat, chunks: seq<UpdateFileChunk>)
    requires i <= |lines| && Advances(read, |lines|)
    requires forall at: nat, first: bool :: at < |lines| && read(at, first).Fail? ==> Located(read(at, first).error, lines)
    ensures var r := ParsedChunks(read, |lines|, i, chunks); r.Err? ==> Located(r.error, lines)
    decreases |lines| - i
  {
    if i < |lines| {
      match read(i, chunks == [])
      case Skip => ChunksErrorLocated(read, lines, i + 1, chunks);
      case Take(chunk, end) => ChunksErrorLocated(read, lines, end, chunks + [chunk]);
      case Stop =>
      case Fail(_) =>
    }
  }

  lemma StepErrorsLocated(lines: Lines)
    ensures forall at: nat, first: bool :: at < |lines| && ReadsChunk(lines)(at, first).Fail? ==>
              Located(ReadsChunk(lines)(at, first).error, lines)
  {
    forall at: nat, first: bool | at < |lines| && ReadsChunk(lines)(at, first).Fail?
      ensures Located(ReadsChunk(lines)(at, first).error, lines)
    {
      assert ReadsChunk(lines)(at, first) == StepAt(lines, at, first);
      ChunkErrorLocated(lines, at, first);
    }
  }

  lemma UpdateErrorLocated(lines: Lines, at: nat, path: string)
    requires at < |lines| && HeaderOf(TrimSpace(lines[at])) == UpdateHeader(path)
    ensures var r := ParsedUpdate(ReadsChunk(lines), lines, at, path); r.Err? ==> Located(r.error, lines)
  {
    StepErrorsLocated(lines);
    ChunksErrorLocated(ReadsChunk(lines), lines, if MoveLine(lines, at + 1).Some? then at + 2 else at + 1, []);
  }

  lemma HunkErrorLocated(lines: Lines, at: nat)
    requires at < |lines|
    ensures var r := ParsedHunk(ReadsChunk(lines), lines, at); r.Err? ==> Located(r.error, lines)
  {
    var header := HeaderOf(TrimSpace(lines[at]));
    if header.UpdateHeader? {
      UpdateErrorLocated(lines, at, header.path);
    }
  }

  lemma {:induction false} HunksErrorLocated(read: HunkReader, lines: Lines, i: nat, hunks: seq<Hunk>)
    requires i <= |lines| && HunksAdvance(read, |lines|)
    requires forall at: nat :: at < |lines| && read(at).Err? ==> Located(read(at).error, lines)
    ensures var r := ParsedHunks(read, |lines|, i, hunks); r.Err? ==> Located(r.error, lines)
    decreases |lines| - i
  {
    if i < |lines| && read(i).Ok? {
      HunksErrorLocated(read, lines, read(i).value.1, hunks + [read(i).value.0]);
    }
  }

  /** In a whole patch, whose first line has number 1: every hunk error is where it says. */
  lemma PatchErrorLocated(patchLines: Lines)
    requires |patchLines| >= 2
    ensures var r := ParsedLines(patchLines);
            r.Err? && r.error != EmptyEnvironmentId ==> Located(r.error, BodyLines(patchLines))
  {
    var lines := BodyLines(patchLines);
    forall at: nat | at < |lines|
      ensures var r := ReadsHunk(lines)(at); r.Err? ==> Located(r.error, lines)
    {
      HunkErrorLocated(lines, at);
    }
    HunksErrorLocated(ReadsHunk(lines), lines, 1, []);
    if |lines| >= 2 {
      HunksErrorLocated(ReadsHunk(lines), lines, 2, []);
    }
  }

  // ----- Conservation

  /** `ends[k]` is where hunk `k` ends; it starts where the one before ended. */
  ghost predicate Partitions(read: HunkReader, ends: seq<nat>, hunks: seq<Hunk>, n: nat, i: nat) {
    if hunks == [] then ends == [] && i == n
    else
      && ends != [] && i < ends[0] <= n
      && read(i) == Ok((hunks[0], ends[0]))
      && Partitions(read, ends[1..], hunks[1..], n, ends[0])
  }

  lemma {:induction false} HunksPartition(read: HunkReader, n: nat, i: nat, before: seq<Hunk>)
    returns (ends: seq<nat>, hunks: seq<Hunk>)
    requires i <= n && HunksAdvance(read, n) && ParsedHunks(read, n, i, before).Ok?
    ensures ParsedHunks(read, n, i, before).value == before + hunks
    ensures Partitions(read, ends, hunks, n, i)
    decreases n - i
  {
    if i == n {
      ends, hunks := [], [];
    } else {
      var (hunk, end) := read(i).value;
      var ends', hunks' := HunksPartition(read, n, end, before + [hunk]);
      ends, hunks := [end] + ends', [hunk] + hunks';
      assert ends[1..] == ends' && hunks[1..] == hunks';
      assert before + [hunk] + hunks' == before + hunks;
    }
  }

  /** The hunks of a patch take up its hunk lines completely, one after another. */
  lemma HunksPartitionLines(lines: Lines, i: nat) returns (ends: seq<nat>)
    requires i <= |lines| && ParsedHunks(ReadsHunk(lines), |lines|, i, []).Ok?
    ensures Partitions(ReadsHunk(lines), ends, ParsedHunks(ReadsHunk(lines), |lines|, i, []).value, |lines|, i)
  {
    var hunks;
    ends, hunks := HunksPartition(ReadsHunk(lines), |lines|, i, []);
    assert [] + hunks == hunks;
  }

  // ----- The loops

  /** `remaining` is what is left of `lines` at position `i`, and `lineNumber` is the number of its first line. */
  ghost predicate At(remaining: Lines, lineNumber: nat, lines: Lines, i: nat) {
    i <= |lines| && remaining == lines[i..] && lineNumber == i + 1
  }

  /** Taking `n` lines keeps the number in step. */
  lemma AtShift(remaining: Lines, lineNumber: nat, lines: Lines, i: nat, n: nat)
    requires At(remaining, lineNumber, lines, i) && n <= |remaining|
    ensures At(remaining[n..], lineNumber + n, lines, i + n)
    ensures n < |remaining| ==> remaining[n] == lines[i + n]
  {
  }

  /** A result counted in lines taken, against one given as a position. */
  ghost predicate Counts<T>(r: Result<(T, nat), ParseError>, spec: Result<(T, nat), ParseError>, i: nat) {
    if r.Err? then spec == Err(r.error) else spec == Ok((r.value.0, i + r.value.1))
  }

  method ParseChangeLines(body: Lines, context: Option<string>, lineNumber: nat, ghost lines: Lines, ghost from: nat)
    returns (r: Result<(UpdateFileChunk, nat), ParseError>)
    requires 0 < lineNumber <= from + 1 && from <= |lines| && body == lines[from..]
    ensures Counts(r, ParsedBody(ReadsBody(lines), lines, lineNumber - 1, from, from, UpdateFileChunk(context, [], [], false)), from)
  {
    var chunk := UpdateFileChunk(context, [], [], false);
    ghost var read := ReadsBody(lines);
    ghost var whole := ParsedBody(read, lines, lineNumber - 1, from, from, chunk);
    for parsed := 0 to |body|
      invariant whole == ParsedBody(read, lines, lineNumber - 1, from, from + parsed, chunk)
    {
      var line := BodyLineOf(body[parsed]);
      assert line == read(from + parsed);
      match line
      case Marker =>
        if parsed == 0 {
          return Err(NoChangeLines(lineNumber + 1));
        }
        return Ok((chunk.(isEndOfFile := true), parsed + 1));
      case Other =>
        if parsed == 0 {
          return Err(UnexpectedLine(body[parsed], lineNumber + 1));
        }
        return Ok((chunk, parsed));
      case Change(_, _) =>
        chunk := Extend(chunk, line);
    }
    r := Ok((chunk, |body|));
  }

  method ParseUpdateFileChunk(remaining: Lines, lineNumber: nat, allowMissingContext: bool, ghost lines: Lines, ghost at: nat)
    returns (r: Result<(UpdateFileChunk, nat), ParseError>)
    requires At(remaining, lineNumber, lines, at)
    ensures Counts(r, ParsedChunk(ReadsBody(lines), lines, at, allowMissingContext), at)
  {
    if |remaining| == 0 {
      return Err(NoChangeLines(lineNumber));
    }
    var context: Option<string> := None;
    var startIndex := 0;
    if remaining[0] == EMPTY_CHANGE_CONTEXT {
      startIndex := 1;
    } else if CHANGE_CONTEXT <= remaining[0] {
      context := Some(remaining[0][|CHANGE_CONTEXT|..]);
      startIndex := 1;
    } else if !allowMissingContext {
      return Err(MissingContext(remaining[0], lineNumber));
    }
    if startIndex >= |remaining| {
      return Err(NoChangeLines(lineNumber + 1));
    }
    r := ParseChangeLines(remaining[startIndex..], context, lineNumber, lines, at + startIndex);
    if r.Ok? {
      r := Ok((r.value.0, r.value.1 + startIndex));
    }
  }

  /** `read` is the chunk parser on these lines. */
  ghost predicate ReadsChunksOf(read: ChunkReader, lines: Lines) {
    forall at: nat, first: bool {:trigger StepAt(lines, at, first)} :: read(at, first) == StepAt(lines, at, first)
  }

  /** A step counted in lines taken, against one given as a position. */
  ghost predicate StepCounts(r: ChunkStep, spec: ChunkStep, at: nat) {
    if r.Take? then spec == Take(r.chunk, at + r.end) else spec == r
  }

  /** The decision that each iteration of the chunk loop makes. */
  method NextStep(remaining: Lines, lineNumber: nat, first: bool, ghost read: ChunkReader, ghost lines: Lines, ghost at: nat)
    returns (r: ChunkStep)
    requires remaining != [] && At(remaining, lineNumber, lines, at) && ReadsChunksOf(read, lines)
    ensures StepCounts(r, read(at, first), at)
  {
    assert remaining[0] == lines[at];
    assert read(at, first) == StepAt(lines, at, first);
    if TrimSpace(remaining[0]) == "" {
      return Skip;
    }
    if "*" <= remaining[0] {
      return Stop;
    }
    var one := ParseUpdateFileChunk(remaining, lineNumber, first, lines, at);
    r := match one
         case Ok((chunk, n)) => Take(chunk, n)
         case Err(e) => Fail(e);
  }

  method ParseChunks(start: Lines, lineNumber: nat, ghost read: ChunkReader, ghost lines: Lines, ghost i: nat)
    returns (r: Result<(seq<UpdateFileChunk>, nat), ParseError>)
    requires At(start, lineNumber, lines, i)
    requires ReadsChunksOf(read, lines) && Advances(read, |lines|)
    ensures Counts(r, ParsedChunks(read, |lines|, i, []), i)
  {
    var remaining := start;
    var parsed: nat := 0;
    var chunks: seq<UpdateFileChunk> := [];
    ghost var whole, at := ParsedChunks(read, |lines|, i, []), i;
    while |remaining| > 0
      invariant at == i + parsed && At(remaining, lineNumber + parsed, lines, at)
      invariant whole == ParsedChunks(read, |lines|, at, chunks)
      decreases |remaining|
    {
      var step := NextStep(remaining, lineNumber + parsed, |chunks| == 0, read, lines, at);
      if step.Stop? {
        break;
      }
      if step.Fail? {
        return Err(step.error);
      }
      var n: nat := 1;
      if step.Take? {
        chunks := chunks + [step.chunk];
        n := step.end;
      }
      AtShift(remaining, lineNumber + parsed, lines, at, n);
      parsed := parsed + n;
      remaining := remaining[n..];
      at := at + n;
    }
    r := Ok((chunks, parsed));
  }

  /** Collects the added lines of a new file into its contents. */
  method ParseAddedLines(body: Lines, ghost lines: Lines, ghost i: nat) returns (contents: string, parsed: nat)
    requires i <= |lines| && body == lines[i..]
    ensures (contents, i + parsed) == ParsedAdded(lines, i, "")
  {
    contents, parsed := "", 0;
    while parsed < |body| && IsAdded(body[parsed])
      invariant parsed <= |body|
      invariant ParsedAdded(lines, i, "") == ParsedAdded(lines, i + parsed, contents)
    {
      contents := contents + body[parsed][1..] + "\n";
      parsed := parsed + 1;
    }
  }

  method ParseOneHunk(remaining: Lines, lineNumber: nat, ghost lines: Lines, ghost at: nat)
    returns (r: Result<(Hunk, nat), ParseError>)
    requires remaining != [] && At(remaining, lineNumber, lines, at)
    ensures Counts(r, ParsedHunk(ReadsChunk(lines), lines, at), at)
  {
    var first := TrimSpace(remaining[0]);
    if ADD_FILE <= first {
      var contents, parsed := ParseAddedLines(remaining[1..], lines, at + 1);
      return Ok((AddFile(first[|ADD_FILE|..], contents), 1 + parsed));
    }
    if DELETE_FILE <= first {
      return Ok((DeleteFile(first[|DELETE_FILE|..]), 1));
    }
    if UPDATE_FILE <= first {
      r := ParseUpdate(remaining, first[|UPDATE_FILE|..], lineNumber, lines, at);
      return;
    }
    r := Err(BadHeader(first, lineNumber));
  }

  method ParseUpdate(remaining: Lines, path: string, lineNumber: nat, ghost lines: Lines, ghost at: nat)
    returns (r: Result<(Hunk, nat), ParseError>)
    requires remaining != [] && At(remaining, lineNumber, lines, at)
    ensures Counts(r, ParsedUpdate(ReadsChunk(lines), lines, at, path), at)
  {
    var movePath: Option<string> := None;
    var parsed := 1;
    if |remaining| > 1 && MOVE_TO <= remaining[1] {
      movePath := Some(remaining[1][|MOVE_TO|..]);
      parsed := 2;
    }
    var chunks := ParseChunks(remaining[parsed..], lineNumber + parsed, ReadsChunk(lines), lines, at + parsed);
    if chunks.Err? {
      return Err(chunks.error);
    }
    if |chunks.value.0| == 0 {
      return Err(EmptyUpdate(path, lineNumber));
    }
    r := Ok((UpdateFile(path, movePath, chunks.value.0), parsed + chunks.value.1));
  }

  /** `read` is the hunk parser on these lines. */
  ghost predicate ReadsHunksOf(read: HunkReader, lines: Lines) {
    forall at: nat {:trigger ParsedHunk(ReadsChunk(lines), lines, at)} :: read(at) == ParsedHunk(ReadsChunk(lines), lines, at)
  }

  method ReadHunk(remaining: Lines, lineNumber: nat, ghost read: HunkReader, ghost lines: Lines, ghost at: nat)
    returns (r: Result<(Hunk, nat), ParseError>)
    requires remaining != [] && At(remaining, lineNumber, lines, at) && ReadsHunksOf(read, lines)
    ensures Counts(r, read(at), at)
  {
    r := ParseOneHunk(remaining, lineNumber, lines, at);
  }

  /** Taking one hunk leaves the rest of the work unchanged. */
  lemma HunkTaken(read: HunkReader, n: nat, i: nat, hunks: seq<Hunk>, h: Hunk, end: nat)
    requires i < n && HunksAdvance(read, n) && read(i) == Ok((h, end))
    ensures i < end <= n && ParsedHunks(read, n, i, hunks) == ParsedHunks(read, n, end, hunks + [h])
  {
  }

  /** The running line number is the position in the patch, so the errors of the hunks are numbered right. */
  method ParseHunks(start: Lines, first: nat, ghost read: HunkReader, ghost lines: Lines) returns (r: Result<seq<Hunk>, ParseError>)
    requires first > 0 && At(start, first, lines, first - 1)
    requires ReadsHunksOf(read, lines) && HunksAdvance(read, |lines|)
    ensures r == ParsedHunks(read, |lines|, first - 1, [])
  {
    var remaining, lineNumber := start, first;
    var hunks: seq<Hunk> := [];
    ghost var whole := ParsedHunks(read, |lines|, first - 1, []);
    ghost var at: nat := first - 1;
    while |remaining| > 0
      invariant At(remaining, lineNumber, lines, at)
      invariant whole == ParsedHunks(read, |lines|, at, hunks)
      decreases |remaining|
    {
      var one := ReadHunk(remaining, lineNumber, read, lines, at);
      if one.Err? {
        return Err(one.error);
      }
      var (hunk, consumed) := one.value;
      HunkTaken(read, |lines|, at, hunks, hunk, at + consumed);
      AtShift(remaining, lineNumber, lines, at, consumed);
      hunks := hunks + [hunk];
      lineNumber := lineNumber + consumed;
      remaining := remaining[consumed..];
      at := at + consumed;
    }
    r := Ok(hunks);
  }

  /** The environment id, the lines after it, and the number of the first of them. */
  method ParseEnvironmentIdPreamble(hunkLines: Lines, ghost lines: Lines)
    returns (r: Result<(Option<string>, Lines, nat), ParseError>)
    requires |lines| >= 1 && hunkLines == lines[1..]
    ensures if r.Err? then ParsedPreamble(lines) == Err(r.error)
            else && ParsedPreamble(lines) == Ok(r.value.0)
                 && At(r.value.1, r.value.2, lines, if r.value.0.Some? then 2 else 1)
  {
    if |hunkLines| == 0 {
      return Ok((None, hunkLines, 2));
    }
    var rest := CutPrefix(TrimStart(hunkLines[0]), ENVIRONMENT_ID);
    if rest.None? {
      return Ok((None, hunkLines, 2));
    }
    var id := TrimSpace(rest.value);
    if id == "" {
      return Err(EmptyEnvironmentId);
    }
    r := Ok((Some(id), hunkLines[1..], 3));
  }

  method ParsePatchText(text: string, mode: ParseMode) returns (r: Result<ParseResult, ParseError>)
    ensures r == ParsedPatch(text, mode)
  {
    var bounded := PatchLines(SplitLines(TrimSpace(text)), mode);
    if bounded.Err? {
      return Err(bounded.error);
    }
    var patchLines := bounded.value;
    ghost var lines := BodyLines(patchLines);
    var preamble := ParseEnvironmentIdPreamble(patchLines[1..|patchLines| - 1], lines);
    if preamble.Err? {
      return Err(preamble.error);
    }
    var hunks := ParseHunks(preamble.value.1, preamble.value.2, ReadsHunk(lines), lines);
    if hunks.Err? {
      return Err(hunks.error);
    }
    r := Ok(ParseResult(Join(patchLines), hunks.value, preamble.value.0));
  }
}
