/**
 The texts of a patch, following the grammar in internal/applypatch/doc.go: a
 patch can be spelled in many ways, by interleaving its change lines or leaving
 out the context marker of a first chunk, and each spelling says one patch.
 */
module PatchText {

  import opened PatchTypes
  import opened LineText
  import opened Whitespace
  import opened PatchParser
  import opened ChangeLines

  // ----- Spellings

  /** The line before the change lines, which a first chunk need not have. */
  datatype ContextMark = NoMark | BareMark | NamedMark(context: string)

  datatype ChunkText = ChunkText(mark: ContextMark, body: seq<ChangeLine>, isEndOfFile: bool)

  datatype HunkText =
    | AddText(path: string, contents: string)
    | DeleteText(path: string)
    | UpdateText(path: string, movePath: Option<string>, chunks: seq<ChunkText>)

  function ContextSaid(mark: ContextMark): Option<string> {
    if mark.NamedMark? then Some(mark.context) else None
  }

  /** The chunk that a chunk text says. */
  function ChunkOf(c: ChunkText): UpdateFileChunk {
    UpdateFileChunk(ContextSaid(c.mark), Olds(c.body, |c.body|), News(c.body, |c.body|), c.isEndOfFile)
  }

  function ChunksOf(cs: seq<ChunkText>): (r: seq<UpdateFileChunk>)
    ensures |r| == |cs|
    ensures forall i :: 0 <= i < |cs| ==> r[i] == ChunkOf(cs[i])
  {
    seq(|cs|, i requires 0 <= i < |cs| => ChunkOf(cs[i]))
  }

  function HunkOf(h: HunkText): Hunk {
    match h
    case AddText(path, contents) => AddFile(path, contents)
    case DeleteText(path) => DeleteFile(path)
    case UpdateText(path, movePath, chunks) => UpdateFile(path, movePath, ChunksOf(chunks))
  }

  function HunksOf(hs: seq<HunkText>): (r: seq<Hunk>)
    ensures |r| == |hs|
    ensures forall i :: 0 <= i < |hs| ==> r[i] == HunkOf(hs[i])
  {
    seq(|hs|, i requires 0 <= i < |hs| => HunkOf(hs[i]))
  }

  // ----- Writing a spelling

  function Spelling(line: ChangeLine): string {
    match line
    case Keep(text) => " " + text
    case Cut(text) => "-" + text
    case Put(text) => "+" + text
    case Blank => ""
  }

  function BodyText(body: seq<ChangeLine>): (r: Lines)
    ensures |r| == |body|
    ensures forall i :: 0 <= i < |body| ==> r[i] == Spelling(body[i])
  {
    seq(|body|, i requires 0 <= i < |body| => Spelling(body[i]))
  }

  function MarkLines(mark: ContextMark): Lines {
    match mark
    case NoMark => []
    case BareMark => ["@@"]
    case NamedMark(context) => ["@@ " + context]
  }

  function EofLines(c: ChunkText): Lines {
    if c.isEndOfFile then ["*** End of File"] else []
  }

  function PrintChunk(c: ChunkText): Lines {
    MarkLines(c.mark) + BodyText(c.body) + EofLines(c)
  }

  function Flatten(parts: seq<Lines>): Lines {
    if parts == [] then [] else parts[0] + Flatten(parts[1..])
  }

  function ChunkParts(cs: seq<ChunkText>): (parts: seq<Lines>)
    ensures |parts| == |cs|
    ensures forall i :: 0 <= i < |cs| ==> parts[i] == PrintChunk(cs[i])
  {
    seq(|cs|, i requires 0 <= i < |cs| => PrintChunk(cs[i]))
  }

  function PrintChunks(cs: seq<ChunkText>): Lines {
    Flatten(ChunkParts(cs))
  }

  function Tagged(tag: char, lines: Lines): (r: Lines)
    ensures |r| == |lines|
    ensures forall i :: 0 <= i < |lines| ==> r[i] == [tag] + lines[i]
  {
    seq(|lines|, i requires 0 <= i < |lines| => [tag] + lines[i])
  }

  /** The complete lines of a file's contents. */
  function ContentLines(contents: string): Lines {
    var pieces := Split(contents);
    pieces[..|pieces| - 1]
  }

  function MoveLines(movePath: Option<string>): Lines {
    match movePath
    case None => []
    case Some(p) => ["*** Move to: " + p]
  }

  function PrintHunk(h: HunkText): Lines {
    match h
    case AddText(path, contents) => ["*** Add File: " + path] + Tagged('+', ContentLines(contents))
    case DeleteText(path) => ["*** Delete File: " + path]
    case UpdateText(path, movePath, chunks) => ["*** Update File: " + path] + MoveLines(movePath) + PrintChunks(chunks)
  }

  function HunkParts(hunks: seq<HunkText>): (parts: seq<Lines>)
    ensures |parts| == |hunks|
    ensures forall i :: 0 <= i < |hunks| ==> parts[i] == PrintHunk(hunks[i])
  {
    seq(|hunks|, i requires 0 <= i < |hunks| => PrintHunk(hunks[i]))
  }

  function PrintHunks(hunks: seq<HunkText>): Lines {
    Flatten(HunkParts(hunks))
  }

  function IdLines(id: Option<string>): Lines {
    match id
    case None => []
    case Some(s) => ["*** Environment ID: " + s]
  }

  function PrintBody(id: Option<string>, hunks: seq<HunkText>): Lines {
    ["*** Begin Patch"] + IdLines(id) + PrintHunks(hunks)
  }

  function PrintLines(id: Option<string>, hunks: seq<HunkText>): Lines {
    PrintBody(id, hunks) + ["*** End Patch"]
  }

  function Print(id: Option<string>, hunks: seq<HunkText>): string {
    Join(PrintLines(id, hunks))
  }

  /**
   Lines as they stand in a text: any but the last may be followed by a carriage
   return, and one that ends with a carriage return itself must be.
   */
  predicate Written(raw: Lines, lines: Lines) {
    && PlainLines(raw) && raw != [] && StripReturns(raw) == lines
    && raw[|raw| - 1] == lines[|lines| - 1]
  }

  // ----- Well-formed spellings

  predicate PlainLines(lines: Lines) {
    forall i :: 0 <= i < |lines| ==> NoNewline(lines[i])
  }

  /** A path that survives the trimming of its header line. */
  predicate HeaderPath(s: string) {
    NoNewline(s) && s != "" && !IsSpace(s[|s| - 1])
  }

  /** Only the mark of a first chunk may be left out. */
  predicate WellFormedChunk(c: ChunkText, first: bool) {
    && (forall i :: 0 <= i < |c.body| ==> c.body[i] == Blank || NoNewline(c.body[i].text))
    && (c.mark.NamedMark? ==> NoNewline(c.mark.context))
    && (c.mark.NoMark? ==> first)
  }

  predicate WellFormedChunks(cs: seq<ChunkText>) {
    forall i :: 0 <= i < |cs| ==> WellFormedChunk(cs[i], i == 0)
  }

  /** Contents made of complete lines. */
  predicate WellFormedContents(contents: string) {
    contents == "" || contents[|contents| - 1] == '\n'
  }

  predicate WellFormedHunk(h: HunkText) {
    && HeaderPath(h.path)
    && (h.AddText? ==> WellFormedContents(h.contents))
    && (h.UpdateText? ==> WellFormedChunks(h.chunks) && (h.movePath.Some? ==> NoNewline(h.movePath.value)))
  }

  predicate WellFormedHunks(hunks: seq<HunkText>) {
    forall i :: 0 <= i < |hunks| ==> WellFormedHunk(hunks[i])
  }

  predicate WellFormedId(id: Option<string>) {
    id.Some? ==> HeaderPath(id.value) && !IsSpace(id.value[0])
  }

  // ----- Readable spellings

  /** A chunk has a change line, and without its mark it does not start with one that looks blank. */
  predicate ReadableChunk(c: ChunkText) {
    c.body != [] && (c.mark == NoMark ==> !IsBlank(Spelling(c.body[0])))
  }

  predicate ReadableChunks(cs: seq<ChunkText>) {
    cs != [] && forall i :: 0 <= i < |cs| ==> ReadableChunk(cs[i])
  }

  predicate ReadableHunk(h: HunkText) {
    h.UpdateText? ==> ReadableChunks(h.chunks)
  }

  predicate AllReadable(hunks: seq<HunkText>) {
    forall i :: 0 <= i < |hunks| ==> ReadableHunk(hunks[i])
  }

  // ----- What can be seen of a spelling

  /** How many change lines look blank before the first that does not. */
  function BlankLines(body: seq<ChangeLine>): (n: nat)
    ensures n <= |body|
  {
    if body == [] || !IsBlank(Spelling(body[0])) then 0 else 1 + BlankLines(body[1..])
  }

  /** How many lines of an update are skipped before its first chunk. */
  function Unseen(cs: seq<ChunkText>): (n: nat)
    ensures cs != [] ==> n <= |cs[0].body|
  {
    if cs != [] && cs[0].mark == NoMark then BlankLines(cs[0].body) else 0
  }

  function SeenChunks(cs: seq<ChunkText>): seq<ChunkText> {
    if cs == [] then [] else [cs[0].(body := cs[0].body[Unseen(cs)..])] + cs[1..]
  }

  function SeenHunk(h: HunkText): HunkText {
    if h.UpdateText? then h.(chunks := SeenChunks(h.chunks)) else h
  }

  /** A spelling without the lines that are skipped. */
  function Seen(hunks: seq<HunkText>): (r: seq<HunkText>)
    ensures |r| == |hunks|
    ensures forall i :: 0 <= i < |hunks| ==> r[i] == SeenHunk(hunks[i])
  {
    seq(|hunks|, i requires 0 <= i < |hunks| => SeenHunk(hunks[i]))
  }

  // ----- Every patch has a spelling

  predicate PlainChunk(c: UpdateFileChunk) {
    && PlainLines(c.oldLines) && PlainLines(c.newLines)
    && (c.changeContext.Some? ==> NoNewline(c.changeContext.value))
  }

  predicate PrintableChunk(c: UpdateFileChunk) {
    NonEmpty(c) && PlainChunk(c)
  }

  predicate PrintableHunk(h: Hunk) {
    && HeaderPath(h.path)
    && (h.AddFile? ==> WellFormedContents(h.contents))
    && (h.UpdateFile? ==>
          && h.chunks != [] && (forall i :: 0 <= i < |h.chunks| ==> PrintableChunk(h.chunks[i]))
          && (h.movePath.Some? ==> NoNewline(h.movePath.value)))
  }

  predicate PrintableHunks(hunks: seq<Hunk>) {
    forall i :: 0 <= i < |hunks| ==> PrintableHunk(hunks[i])
  }

  /** The canonical text of a chunk: marked, removals before additions. */
  function CanonicalChunk(c: UpdateFileChunk): ChunkText {
    ChunkText(
      match c.changeContext case None => BareMark case Some(context) => NamedMark(context),
      CanonicalBody(c.oldLines, c.newLines),
      c.isEndOfFile)
  }

  function CanonicalHunk(h: Hunk): HunkText {
    match h
    case AddFile(path, contents) => AddText(path, contents)
    case DeleteFile(path) => DeleteText(path)
    case UpdateFile(path, movePath, chunks) =>
      UpdateText(path, movePath, seq(|chunks|, i requires 0 <= i < |chunks| => CanonicalChunk(chunks[i])))
  }

  function Canonical(hunks: seq<Hunk>): seq<HunkText> {
    seq(|hunks|, i requires 0 <= i < |hunks| => CanonicalHunk(hunks[i]))
  }

  lemma CanonicalBodyPlain(olds: Lines, news: Lines)
    requires PlainLines(olds) && PlainLines(news)
    ensures var body := CanonicalBody(olds, news);
            && |body| == |olds| + |news|
            && forall i :: 0 <= i < |body| ==> body[i] != Blank && NoNewline(body[i].text)
  {
    CanonicalBodyCarries(olds, news);
    assert forall l :: l in olds + news ==> NoNewline(l);
  }

  lemma CanonicalChunkSays(c: UpdateFileChunk, first: bool)
    requires PrintableChunk(c)
    ensures WellFormedChunk(CanonicalChunk(c), first) && ReadableChunk(CanonicalChunk(c)) && ChunkOf(CanonicalChunk(c)) == c
  {
    CanonicalBodySays(c.oldLines, c.newLines);
    CanonicalBodyPlain(c.oldLines, c.newLines);
  }

  /** The canonical text of a printable patch is well-formed and readable, and says that patch. */
  lemma CanonicalSays(hunks: seq<Hunk>)
    requires PrintableHunks(hunks)
    ensures WellFormedHunks(Canonical(hunks)) && AllReadable(Canonical(hunks)) && HunksOf(Canonical(hunks)) == hunks
  {
    forall i | 0 <= i < |hunks|
      ensures WellFormedHunk(Canonical(hunks)[i]) && ReadableHunk(Canonical(hunks)[i]) && HunkOf(Canonical(hunks)[i]) == hunks[i]
    {
      CanonicalHunkSays(hunks[i]);
    }
  }

  lemma CanonicalHunkSays(h: Hunk)
    requires PrintableHunk(h)
    ensures WellFormedHunk(CanonicalHunk(h)) && ReadableHunk(CanonicalHunk(h)) && HunkOf(CanonicalHunk(h)) == h
  {
    if h.UpdateFile? {
      var texts := CanonicalHunk(h).chunks;
      forall i | 0 <= i < |h.chunks|
        ensures WellFormedChunk(texts[i], i == 0) && ReadableChunk(texts[i]) && ChunkOf(texts[i]) == h.chunks[i]
      {
        CanonicalChunkSays(h.chunks[i], i == 0);
      }
      assert ChunksOf(texts) == h.chunks;
    }
  }
}
