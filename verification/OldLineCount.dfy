/**
 How many old lines a patch text has, and how many are read from it: the parser
 (internal/applypatch/parser.go) never reads more old lines than the lines it
 takes say, and a printed patch says as many as its hunks have.
 */
module OldLineCount {

  import opened PatchTypes
  import opened LineText
  import opened Whitespace
  import opened PatchParser
  import opened PatchText
  import opened ChangeLines
  import opened PatchPrinter

  // ----- Counting old lines in the text

  /** A line that adds to the old side wherever a chunk takes it. */
  predicate SaysOld(line: string) {
    line == "" || line[0] == ' ' || line[0] == '-'
  }

  function Weight(line: string): nat {
    if SaysOld(line) then 1 else 0
  }

  /** How many of the lines from `i` to `end` say an old line. */
  function Count(lines: Lines, i: nat, end: nat): nat
    requires end <= |lines|
    decreases end
  {
    if end <= i then 0 else Count(lines, i, end - 1) + Weight(lines[end - 1])
  }

  lemma {:induction false} CountSplit(lines: Lines, i: nat, mid: nat, end: nat)
    requires i <= mid <= end <= |lines|
    ensures Count(lines, i, end) == Count(lines, i, mid) + Count(lines, mid, end)
    decreases end
  {
    if mid < end {
      CountSplit(lines, i, mid, end - 1);
    }
  }

  lemma CountFirst(lines: Lines, i: nat, end: nat)
    requires i < end <= |lines|
    ensures Count(lines, i, end) == Weight(lines[i]) + Count(lines, i + 1, end)
  {
    CountSplit(lines, i, i + 1, end);
    assert Count(lines, i, i) == 0;
  }

  lemma LineWeight(line: string)
    ensures BodyLineOf(line).Change? ==> |BodyLineOf(line).olds| == Weight(line)
    ensures BodyLineOf(line).Marker? ==> Weight(line) == 0
  {
    assert END_OF_FILE[0] == '*';
  }

  // ----- Counting old lines in what is read

  /** How many old lines some chunks say. */
  function ChunkTotal(cs: seq<UpdateFileChunk>): nat {
    if cs == [] then 0 else ChunkTotal(cs[..|cs| - 1]) + |cs[|cs| - 1].oldLines|
  }

  function HunkTotal(h: Hunk): nat {
    if h.UpdateFile? then ChunkTotal(h.chunks) else 0
  }

  function Total(hunks: seq<Hunk>): nat {
    if hunks == [] then 0 else HunkTotal(hunks[0]) + Total(hunks[1..])
  }

  lemma ChunkTotalSnoc(cs: seq<UpdateFileChunk>, c: UpdateFileChunk)
    ensures ChunkTotal(cs + [c]) == ChunkTotal(cs) + |c.oldLines|
  {
    assert (cs + [c])[..|cs|] == cs;
  }

  lemma {:induction false} ChunkTotalCons(c: UpdateFileChunk, cs: seq<UpdateFileChunk>)
    ensures ChunkTotal([c] + cs) == |c.oldLines| + ChunkTotal(cs)
  {
    if cs == [] {
      assert ([c] + cs)[..0] == [];
    } else {
      var n := |cs| - 1;
      ChunkTotalCons(c, cs[..n]);
      assert ([c] + cs)[..n + 1] == [c] + cs[..n];
    }
  }

  // ----- A reading says at most the old lines it takes

  /** The reader classifies these lines. */
  ghost predicate ReadsLines(read: BodyReader, lines: Lines) {
    forall i: nat :: i < |lines| ==> read(i) == BodyLineOf(lines[i])
  }

  lemma {:induction false} BodyCounts(read: BodyReader, lines: Lines, at: nat, from: nat, i: nat, chunk: UpdateFileChunk)
    requires at <= from <= i <= |lines| && ReadsLines(read, lines)
    ensures var r := ParsedBody(read, lines, at, from, i, chunk);
            r.Ok? ==> |r.value.0.oldLines| == |chunk.oldLines| + Count(lines, i, r.value.1)
    decreases |lines| - i
  {
    if i < |lines| {
      LineWeight(lines[i]);
      if read(i).Change? {
        var next := Extend(chunk, read(i));
        BodyCounts(read, lines, at, from, i + 1, next);
        var r := ParsedBody(read, lines, at, from, i + 1, next);
        if r.Ok? {
          CountFirst(lines, i, r.value.1);
        }
      } else if read(i).Marker? {
        CountFirst(lines, i, i + 1);
      }
    }
  }

  /** Every chunk that the reader takes says at most the old lines among the lines it takes. */
  ghost predicate TakesCounted(read: ChunkReader, lines: Lines) {
    forall at: nat, first: bool ::
      var step := read(at, first);
      step.Take? ==> at < step.end <= |lines| && |step.chunk.oldLines| <= Count(lines, at, step.end)
  }

  lemma ChunkCounts(lines: Lines, at: nat, first: bool)
    ensures var r := ParsedChunk(ReadsBody(lines), lines, at, first);
            r.Ok? ==> |r.value.0.oldLines| <= Count(lines, at, r.value.1)
  {
    var r := ParsedChunk(ReadsBody(lines), lines, at, first);
    if r.Ok? {
      if IsContextLine(lines[at]) {
        BodyCounts(ReadsBody(lines), lines, at, at + 1, at + 1, UpdateFileChunk(ContextOf(lines[at]), [], [], false));
        CountFirst(lines, at, r.value.1);
      } else {
        BodyCounts(ReadsBody(lines), lines, at, at, at, UpdateFileChunk(None, [], [], false));
      }
    }
  }

  lemma TakesAreCounted(lines: Lines)
    ensures TakesCounted(ReadsChunk(lines), lines)
  {
    forall at: nat, first: bool
      ensures var step := ReadsChunk(lines)(at, first);
              step.Take? ==> at < step.end <= |lines| && |step.chunk.oldLines| <= Count(lines, at, step.end)
    {
      ChunkCounts(lines, at, first);
    }
  }

  lemma {:induction false} ChunksCount(read: ChunkReader, lines: Lines, i: nat, chunks: seq<UpdateFileChunk>)
    requires i <= |lines| && Advances(read, |lines|) && TakesCounted(read, lines)
    ensures var r := ParsedChunks(read, |lines|, i, chunks);
            r.Ok? ==> ChunkTotal(r.value.0) <= ChunkTotal(chunks) + Count(lines, i, r.value.1)
    decreases |lines| - i
  {
    var r := ParsedChunks(read, |lines|, i, chunks);
    if i < |lines| && r.Ok? {
      match read(i, chunks == [])
      case Skip =>
        ChunksCount(read, lines, i + 1, chunks);
        CountFirst(lines, i, r.value.1);
      case Take(chunk, end) =>
        ChunksCount(read, lines, end, chunks + [chunk]);
        ChunkTotalSnoc(chunks, chunk);
        CountSplit(lines, i, end, r.value.1);
      case Stop =>
    }
  }

  /** Every hunk that the reader reads says at most the old lines among the lines it takes. */
  ghost predicate HunksCounted(read: HunkReader, lines: Lines) {
    forall at: nat :: at < |lines| && read(at).Ok? ==>
      var (h, end) := read(at).value;
      at < end <= |lines| && HunkTotal(h) <= Count(lines, at, end)
  }

  lemma UpdateCounts(read: ChunkReader, lines: Lines, at: nat, path: string)
    requires at < |lines| && Advances(read, |lines|) && TakesCounted(read, lines)
    ensures var r := ParsedUpdate(read, lines, at, path);
            r.Ok? ==> HunkTotal(r.value.0) <= Count(lines, at, r.value.1)
  {
    var r := ParsedUpdate(read, lines, at, path);
    if r.Ok? {
      var start := if MoveLine(lines, at + 1).Some? then at + 2 else at + 1;
      ChunksCount(read, lines, start, []);
      CountSplit(lines, at, start, r.value.1);
    }
  }

  lemma ReadHunksCounted(lines: Lines)
    ensures HunksCounted(ReadsHunk(lines), lines)
  {
    TakesAreCounted(lines);
    forall at: nat | at < |lines| && ReadsHunk(lines)(at).Ok?
      ensures var (h, end) := ReadsHunk(lines)(at).value;
              at < end <= |lines| && HunkTotal(h) <= Count(lines, at, end)
    {
      var header := HeaderOf(TrimSpace(lines[at]));
      if header.UpdateHeader? {
        UpdateCounts(ReadsChunk(lines), lines, at, header.path);
      }
    }
  }

  lemma {:induction false} PartitionCounts(read: HunkReader, lines: Lines, ends: seq<nat>, hunks: seq<Hunk>, i: nat)
    requires i <= |lines| && HunksCounted(read, lines) && Partitions(read, ends, hunks, |lines|, i)
    ensures Total(hunks) <= Count(lines, i, |lines|)
    decreases |hunks|
  {
    if hunks != [] {
      PartitionCounts(read, lines, ends[1..], hunks[1..], ends[0]);
      CountSplit(lines, i, ends[0], |lines|);
    }
  }

  // ----- The old lines of a printed patch

  /** How many of some lines say an old line. */
  function OldLines(ls: Lines): nat {
    if ls == [] then 0 else OldLines(ls[..|ls| - 1]) + Weight(ls[|ls| - 1])
  }

  lemma {:induction false} OldLinesConcat(p: Lines, q: Lines)
    ensures OldLines(p + q) == OldLines(p) + OldLines(q)
    decreases |q|
  {
    if q == [] {
      assert p + q == p;
    } else {
      var n := |q| - 1;
      OldLinesConcat(p, q[..n]);
      assert (p + q)[..|p| + n] == p + q[..n];
    }
  }

  lemma {:induction false} NoOldLines(ls: Lines)
    requires forall line :: line in ls ==> !SaysOld(line)
    ensures OldLines(ls) == 0
  {
    if ls != [] {
      NoOldLines(ls[..|ls| - 1]);
    }
  }

  lemma {:induction false} SpelledCount(lines: Lines, i: nat, part: Lines, k: nat)
    requires k <= |part| && Spells(lines, i, part)
    ensures Count(lines, i, i + k) == OldLines(part[..k])
    decreases k
  {
    if k > 0 {
      SpelledCount(lines, i, part, k - 1);
      assert lines[i + (k - 1)] == part[k - 1];
      assert part[..k][..k - 1] == part[..k - 1];
    }
  }

  lemma {:induction false} BodyWeighs(body: seq<ChangeLine>, k: nat)
    requires k <= |body|
    ensures OldLines(BodyText(body)[..k]) == |Olds(body, k)|
    decreases k
  {
    if k > 0 {
      BodyWeighs(body, k - 1);
      LineClassified(body[k - 1]);
      LineWeight(BodyText(body)[k - 1]);
      assert BodyText(body)[..k][..k - 1] == BodyText(body)[..k - 1];
    }
  }

  lemma FrameSaysNothing(c: ChunkText)
    ensures OldLines(MarkLines(c.mark)) == OldLines(EofLines(c)) == 0
  {
    assert END_OF_FILE[0] == '*';
    if c.mark != NoMark {
      MarkRead(c.mark);
    }
    NoOldLines(MarkLines(c.mark));
    NoOldLines(EofLines(c));
  }

  lemma ChunkWeighs(c: ChunkText)
    ensures OldLines(PrintChunk(c)) == |ChunkOf(c).oldLines|
  {
    FrameSaysNothing(c);
    OldLinesConcat(MarkLines(c.mark) + BodyText(c.body), EofLines(c));
    OldLinesConcat(MarkLines(c.mark), BodyText(c.body));
    BodyWeighs(c.body, |c.body|);
    assert BodyText(c.body)[..|c.body|] == BodyText(c.body);
  }

  lemma PrintChunksCons(cs: seq<ChunkText>)
    requires cs != []
    ensures PrintChunks(cs) == PrintChunk(cs[0]) + PrintChunks(cs[1..])
    ensures ChunksOf(cs) == [ChunkOf(cs[0])] + ChunksOf(cs[1..])
  {
    ChunkPartsCons(cs);
    ChunksOfCons(cs);
  }

  lemma ChunkPartsCons(cs: seq<ChunkText>)
    requires cs != []
    ensures ChunkParts(cs)[0] == PrintChunk(cs[0]) && ChunkParts(cs)[1..] == ChunkParts(cs[1..])
  {
  }

  lemma ChunksOfCons(cs: seq<ChunkText>)
    requires cs != []
    ensures ChunksOf(cs) == [ChunkOf(cs[0])] + ChunksOf(cs[1..])
  {
  }

  lemma {:induction false} ChunksWeigh(cs: seq<ChunkText>)
    ensures OldLines(PrintChunks(cs)) == ChunkTotal(ChunksOf(cs))
  {
    if cs != [] {
      PrintChunksCons(cs);
      ChunkWeighs(cs[0]);
      ChunksWeigh(cs[1..]);
      OldLinesConcat(PrintChunk(cs[0]), PrintChunks(cs[1..]));
      ChunkTotalCons(ChunkOf(cs[0]), ChunksOf(cs[1..]));
    }
  }

  lemma HunkWeighs(h: HunkText)
    ensures OldLines(PrintHunk(h)) == HunkTotal(HunkOf(h))
  {
    MarkersDiffer();
    assert MOVE_TO[0] == '*';
    if h.UpdateText? {
      var head := [UPDATE_FILE + h.path] + MoveLines(h.movePath);
      NoOldLines(head);
      OldLinesConcat(head, PrintChunks(h.chunks));
      ChunksWeigh(h.chunks);
    } else {
      NoOldLines(PrintHunk(h));
    }
  }

  lemma PrintHunksCons(hs: seq<HunkText>)
    requires hs != []
    ensures PrintHunks(hs) == PrintHunk(hs[0]) + PrintHunks(hs[1..])
    ensures HunksOf(hs) == [HunkOf(hs[0])] + HunksOf(hs[1..])
  {
    assert HunkParts(hs)[1..] == HunkParts(hs[1..]);
  }

  /** The text of some hunks has as many old lines as they say. */
  lemma {:induction false} HunksWeigh(hs: seq<HunkText>)
    ensures OldLines(PrintHunks(hs)) == Total(HunksOf(hs))
  {
    if hs != [] {
      PrintHunksCons(hs);
      HunkWeighs(hs[0]);
      HunksWeigh(hs[1..]);
      OldLinesConcat(PrintHunk(hs[0]), PrintHunks(hs[1..]));
      assert HunksOf(hs)[1..] == HunksOf(hs[1..]);
    }
  }

  lemma PrintedCount(lines: Lines, i: nat, hs: seq<HunkText>)
    requires Spells(lines, i, PrintHunks(hs))
    ensures Count(lines, i, i + |PrintHunks(hs)|) == Total(HunksOf(hs))
  {
    var part := PrintHunks(hs);
    SpelledCount(lines, i, part, |part|);
    assert part[..|part|] == part;
    HunksWeigh(hs);
  }
}
