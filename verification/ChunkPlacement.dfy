/**
 Where the chunks of an update belong in a file (internal/applypatch/replacements.go),
 stated on what the search must answer: the file lines that a chunk's context and
 old lines are found on, and what replaces them.
 */
module ChunkPlacement {

  import opened PatchTypes
  import opened Likeness

  /** Replace `oldLen` lines from `start` on by `newLines`. */
  datatype Replacement = Replacement(start: nat, oldLen: nat, newLines: Lines) {
    function End(): nat { start + oldLen }
  }

  datatype ComputeError =
    | ContextNotFound(context: string)
    | LinesNotFound(oldLines: Lines)

  /** The lines without a final blank one; they may have none. */
  ghost predicate WithoutFinalBlank(lines: Lines, shorter: Lines) {
    lines == shorter + [""] || (lines == shorter && forall init :: lines != init + [""])
  }

  /** The old lines are searched for from `from` on: after the context line, if the chunk names one. */
  ghost predicate SearchedFrom(lines: Lines, chunk: UpdateFileChunk, lineIndex: nat, from: nat) {
    match chunk.changeContext
    case None => from == lineIndex
    case Some(context) => from > 0 && Found(lines, [context], lineIndex, false, Some(from - 1))
  }

  /** An addition goes to the end of the file, but before a final blank line. */
  ghost predicate Added(lines: Lines, chunk: UpdateFileChunk, r: Replacement) {
    r.oldLen == 0 && r.newLines == chunk.newLines && r.start <= |lines| && WithoutFinalBlank(lines, lines[..r.start])
  }

  /** The old lines are where they are found; if nowhere, they are looked for without a final blank line. */
  ghost predicate Replaced(lines: Lines, chunk: UpdateFileChunk, from: nat, r: Replacement) {
    || (&& Found(lines, chunk.oldLines, from, chunk.isEndOfFile, Some(r.start))
        && r.oldLen == |chunk.oldLines| && r.newLines == chunk.newLines)
    || (&& Found(lines, chunk.oldLines, from, chunk.isEndOfFile, None)
        && exists shorter :: chunk.oldLines == shorter + [""] && ReplacedShorter(lines, chunk, shorter, from, r))
  }

  ghost predicate ReplacedShorter(lines: Lines, chunk: UpdateFileChunk, shorter: Lines, from: nat, r: Replacement) {
    && Found(lines, shorter, from, chunk.isEndOfFile, Some(r.start))
    && r.oldLen == |shorter| && WithoutFinalBlank(chunk.newLines, r.newLines)
  }

  /** The chunk becomes `r`, and the next chunk is searched for from `next` on. */
  ghost predicate Placed(lines: Lines, chunk: UpdateFileChunk, lineIndex: nat, r: Replacement, next: nat) {
    exists from :: SearchedFrom(lines, chunk, lineIndex, from) &&
      if chunk.oldLines == [] then Added(lines, chunk, r) && next == from
      else Replaced(lines, chunk, from, r) && next == r.start + r.oldLen
  }

  /** Neither the old lines nor, if they end with a blank line, the others are found. */
  ghost predicate Missing(lines: Lines, chunk: UpdateFileChunk, from: nat) {
    && chunk.oldLines != [] && Found(lines, chunk.oldLines, from, chunk.isEndOfFile, None)
    && forall shorter :: chunk.oldLines == shorter + [""] ==> Found(lines, shorter, from, chunk.isEndOfFile, None)
  }

  /** The outcome for one chunk: its replacement and the next line index, or what is not in the file. */
  ghost predicate Meets(lines: Lines, chunk: UpdateFileChunk, lineIndex: nat, s: Result<(Replacement, nat), ComputeError>) {
    match s
    case Ok((r, next)) => Placed(lines, chunk, lineIndex, r, next)
    case Err(ContextNotFound(context)) =>
      chunk.changeContext == Some(context) && Found(lines, [context], lineIndex, false, None)
    case Err(LinesNotFound(oldLines)) =>
      chunk.oldLines == oldLines && exists from :: SearchedFrom(lines, chunk, lineIndex, from) && Missing(lines, chunk, from)
  }

  /** The outcome for the chunks from the line index on: their replacements in order, or the first error. */
  ghost predicate MeetAll(lines: Lines, chunks: seq<UpdateFileChunk>, lineIndex: nat, s: Result<seq<Replacement>, ComputeError>) {
    if chunks == [] then s == Ok([])
    else
      exists one :: Meets(lines, chunks[0], lineIndex, one) &&
        match one
        case Err(e) => s == Err(e)
        case Ok((r, next)) => exists rest :: MeetAll(lines, chunks[1..], next, rest) && s == Preceded(r, rest)
  }

  function Preceded(r: Replacement, rest: Result<seq<Replacement>, ComputeError>): Result<seq<Replacement>, ComputeError> {
    match rest
    case Err(e) => Err(e)
    case Ok(rs) => Ok([r] + rs)
  }

  // ----- There is only one such outcome

  lemma ShorterUnique(lines: Lines, p: Lines, q: Lines)
    requires WithoutFinalBlank(lines, p) && WithoutFinalBlank(lines, q)
    ensures p == q
  {
    assert lines == p + [""] ==> p == lines[..|lines| - 1];
    assert lines == q + [""] ==> q == lines[..|lines| - 1];
  }

  lemma FromUnique(lines: Lines, chunk: UpdateFileChunk, lineIndex: nat, from: nat, other: nat)
    requires SearchedFrom(lines, chunk, lineIndex, from) && SearchedFrom(lines, chunk, lineIndex, other)
    ensures from == other
  {
    if chunk.changeContext.Some? {
      FoundUnique(lines, [chunk.changeContext.value], lineIndex, false, Some(from - 1), Some(other - 1));
    }
  }

  lemma AddedUnique(lines: Lines, chunk: UpdateFileChunk, r: Replacement, q: Replacement)
    requires Added(lines, chunk, r) && Added(lines, chunk, q)
    ensures r == q
  {
    ShorterUnique(lines, lines[..r.start], lines[..q.start]);
  }

  lemma ReplacedUnique(lines: Lines, chunk: UpdateFileChunk, from: nat, r: Replacement, q: Replacement)
    requires Replaced(lines, chunk, from, r) && Replaced(lines, chunk, from, q)
    ensures r == q
  {
    var olds, eof := chunk.oldLines, chunk.isEndOfFile;
    if Found(lines, olds, from, eof, None) {
      NotBothFound(lines, olds, from, eof, r.start);
      NotBothFound(lines, olds, from, eof, q.start);
      var p :| olds == p + [""] && ReplacedShorter(lines, chunk, p, from, r);
      var p' :| olds == p' + [""] && ReplacedShorter(lines, chunk, p', from, q);
      ShorterUnique(olds, p, p');
      FoundUnique(lines, p, from, eof, Some(r.start), Some(q.start));
      ShorterUnique(chunk.newLines, r.newLines, q.newLines);
    } else {
      FoundUnique(lines, olds, from, eof, Some(r.start), Some(q.start));
    }
  }

  lemma NotBothFound(lines: Lines, pattern: Lines, from: nat, eof: bool, i: nat)
    requires Found(lines, pattern, from, eof, None)
    ensures !Found(lines, pattern, from, eof, Some(i))
  {
    if Found(lines, pattern, from, eof, Some(i)) {
      FoundUnique(lines, pattern, from, eof, None, Some(i));
    }
  }

  lemma NotMissing(lines: Lines, chunk: UpdateFileChunk, from: nat, r: Replacement)
    requires Missing(lines, chunk, from)
    ensures !Replaced(lines, chunk, from, r)
  {
    NotBothFound(lines, chunk.oldLines, from, chunk.isEndOfFile, r.start);
    forall shorter | chunk.oldLines == shorter + [""]
      ensures !ReplacedShorter(lines, chunk, shorter, from, r)
    {
      NotBothFound(lines, shorter, from, chunk.isEndOfFile, r.start);
    }
  }

  lemma NoContext(lines: Lines, chunk: UpdateFileChunk, lineIndex: nat, from: nat)
    requires chunk.changeContext.Some? && Found(lines, [chunk.changeContext.value], lineIndex, false, None)
    ensures !SearchedFrom(lines, chunk, lineIndex, from)
  {
    if from > 0 {
      NotBothFound(lines, [chunk.changeContext.value], lineIndex, false, from - 1);
    }
  }

  lemma PlacedUnique(lines: Lines, chunk: UpdateFileChunk, lineIndex: nat, r: Replacement, next: nat, q: Replacement, next': nat)
    requires Placed(lines, chunk, lineIndex, r, next) && Placed(lines, chunk, lineIndex, q, next')
    ensures r == q && next == next'
  {
    var from :| SearchedFrom(lines, chunk, lineIndex, from) &&
      if chunk.oldLines == [] then Added(lines, chunk, r) && next == from
      else Replaced(lines, chunk, from, r) && next == r.start + r.oldLen;
    var from' :| SearchedFrom(lines, chunk, lineIndex, from') &&
      if chunk.oldLines == [] then Added(lines, chunk, q) && next' == from'
      else Replaced(lines, chunk, from', q) && next' == q.start + q.oldLen;
    FromUnique(lines, chunk, lineIndex, from, from');
    if chunk.oldLines == [] {
      AddedUnique(lines, chunk, r, q);
    } else {
      ReplacedUnique(lines, chunk, from, r, q);
    }
  }

  lemma PlacedIsNoError(lines: Lines, chunk: UpdateFileChunk, lineIndex: nat, r: Replacement, next: nat, e: ComputeError)
    requires Placed(lines, chunk, lineIndex, r, next)
    ensures !Meets(lines, chunk, lineIndex, Err(e))
  {
    var from :| SearchedFrom(lines, chunk, lineIndex, from) &&
      if chunk.oldLines == [] then Added(lines, chunk, r) && next == from
      else Replaced(lines, chunk, from, r) && next == r.start + r.oldLen;
    if Meets(lines, chunk, lineIndex, Err(e)) {
      if e.ContextNotFound? {
        NoContext(lines, chunk, lineIndex, from);
      } else {
        var from' :| SearchedFrom(lines, chunk, lineIndex, from') && Missing(lines, chunk, from');
        FromUnique(lines, chunk, lineIndex, from, from');
        NotMissing(lines, chunk, from, r);
      }
    }
  }

  lemma ErrorUnique(lines: Lines, chunk: UpdateFileChunk, lineIndex: nat, e: ComputeError, f: ComputeError)
    requires Meets(lines, chunk, lineIndex, Err(e)) && Meets(lines, chunk, lineIndex, Err(f))
    ensures e == f
  {
    if e.ContextNotFound? != f.ContextNotFound? {
      var from :| SearchedFrom(lines, chunk, lineIndex, from) && Missing(lines, chunk, from);
      NoContext(lines, chunk, lineIndex, from);
    }
  }

  lemma MeetsUnique(lines: Lines, chunk: UpdateFileChunk, lineIndex: nat,
                    s: Result<(Replacement, nat), ComputeError>, t: Result<(Replacement, nat), ComputeError>)
    requires Meets(lines, chunk, lineIndex, s) && Meets(lines, chunk, lineIndex, t)
    ensures s == t
  {
    match (s, t)
    case (Ok((r, i)), Ok((q, j))) => PlacedUnique(lines, chunk, lineIndex, r, i, q, j);
    case (Ok((r, i)), Err(e)) => PlacedIsNoError(lines, chunk, lineIndex, r, i, e);
    case (Err(e), Ok((r, i))) => PlacedIsNoError(lines, chunk, lineIndex, r, i, e);
    case (Err(e), Err(f)) => ErrorUnique(lines, chunk, lineIndex, e, f);
  }

  /** Whatever the file and the chunks, only one outcome meets all chunks in turn. */
  lemma {:induction false} MeetAllUnique(lines: Lines, chunks: seq<UpdateFileChunk>, lineIndex: nat,
                                         s: Result<seq<Replacement>, ComputeError>, t: Result<seq<Replacement>, ComputeError>)
    requires MeetAll(lines, chunks, lineIndex, s) && MeetAll(lines, chunks, lineIndex, t)
    ensures s == t
    decreases |chunks|
  {
    if chunks != [] {
      var one := FirstOutcome(lines, chunks, lineIndex, s);
      var other := FirstOutcome(lines, chunks, lineIndex, t);
      MeetsUnique(lines, chunks[0], lineIndex, one, other);
      if one.Ok? {
        var (r, next) := one.value;
        var rest :| MeetAll(lines, chunks[1..], next, rest) && s == Preceded(r, rest);
        var rest' :| MeetAll(lines, chunks[1..], next, rest') && t == Preceded(r, rest');
        MeetAllUnique(lines, chunks[1..], next, rest, rest');
      }
    }
  }

  lemma FirstOutcome(lines: Lines, chunks: seq<UpdateFileChunk>, lineIndex: nat, s: Result<seq<Replacement>, ComputeError>)
    returns (one: Result<(Replacement, nat), ComputeError>)
    requires chunks != [] && MeetAll(lines, chunks, lineIndex, s)
    ensures Meets(lines, chunks[0], lineIndex, one)
    ensures match one
            case Err(e) => s == Err(e)
            case Ok((r, next)) => exists rest :: MeetAll(lines, chunks[1..], next, rest) && s == Preceded(r, rest)
  {
    one :| Meets(lines, chunks[0], lineIndex, one) &&
      match one
      case Err(e) => s == Err(e)
      case Ok((r, next)) => exists rest :: MeetAll(lines, chunks[1..], next, rest) && s == Preceded(r, rest);
  }
}
