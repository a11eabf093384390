/**
 Turning update chunks into line replacements and applying them in place
 (internal/applypatch/replacements.go).
 */
module Replacements {

  import opened PatchTypes
  import opened LineText
  import opened Likeness
  import opened ChunkPlacement
  import opened SeekSequence

  // ----- Scheduling

  function DropLast(lines: Lines): Lines
    requires |lines| > 0
  {
    lines[..|lines| - 1]
  }

  /** Where the search for a chunk's old lines begins: after its context line, if it names one. */
  function AfterContext(lines: Lines, chunk: UpdateFileChunk, lineIndex: nat): Option<nat> {
    if chunk.changeContext.None? then Some(lineIndex)
    else
      match Seek(lines, [chunk.changeContext.value], lineIndex, false)
      case None => None
      case Some(i) => Some(i + 1)
  }

  /** Where a pure addition goes: at the end, or before a final blank line. */
  function InsertionPoint(lines: Lines): nat {
    if EndsBlank(lines) then |lines| - 1 else |lines|
  }

  /** Finds the old lines, if need be without a final blank pattern line. */
  function Locate(lines: Lines, chunk: UpdateFileChunk, lineIndex: nat): Option<Replacement> {
    match Seek(lines, chunk.oldLines, lineIndex, chunk.isEndOfFile)
    case Some(i) => Some(Replacement(i, |chunk.oldLines|, chunk.newLines))
    case None =>
      if !EndsBlank(chunk.oldLines) then None
      else
        var pattern := DropLast(chunk.oldLines);
        var newLines := if EndsBlank(chunk.newLines) then DropLast(chunk.newLines) else chunk.newLines;
        match Seek(lines, pattern, lineIndex, chunk.isEndOfFile)
        case Some(i) => Some(Replacement(i, |pattern|, newLines))
        case None => None
  }

  /** One chunk: its replacement, and the line index for the next chunk. */
  function ScheduleOne(lines: Lines, chunk: UpdateFileChunk, lineIndex: nat): Result<(Replacement, nat), ComputeError> {
    match AfterContext(lines, chunk, lineIndex)
    case None => Err(ContextNotFound(chunk.changeContext.value))
    case Some(from) =>
      if chunk.oldLines == [] then
        Ok((Replacement(InsertionPoint(lines), 0, chunk.newLines), from))
      else
        match Locate(lines, chunk, from)
        case None => Err(LinesNotFound(chunk.oldLines))
        case Some(r) => Ok((r, r.End()))
  }

  /** The replacements in chunk order, before sorting. */
  function Schedule(lines: Lines, chunks: seq<UpdateFileChunk>, lineIndex: nat): Result<seq<Replacement>, ComputeError> {
    if chunks == [] then Ok([])
    else
      match ScheduleOne(lines, chunks[0], lineIndex)
      case Err(e) => Err(e)
      case Ok((r, next)) =>
        match Schedule(lines, chunks[1..], next)
        case Err(e) => Err(e)
        case Ok(rest) => Ok([r] + rest)
  }

  // ----- The schedule is what the search must make of the chunks

  lemma EndsBlankMeans(lines: Lines)
    ensures EndsBlank(lines) ==> lines == DropLast(lines) + [""] && WithoutFinalBlank(lines, DropLast(lines))
    ensures !EndsBlank(lines) ==> WithoutFinalBlank(lines, lines)
  {
  }

  lemma LocateMeets(lines: Lines, chunk: UpdateFileChunk, from: nat)
    requires chunk.oldLines != []
    ensures match Locate(lines, chunk, from)
            case Some(r) => Replaced(lines, chunk, from, r)
            case None => Missing(lines, chunk, from)
  {
    var olds := chunk.oldLines;
    SeekFinds(lines, olds, from, chunk.isEndOfFile);
    if Seek(lines, olds, from, chunk.isEndOfFile).None? {
      if EndsBlank(olds) {
        EndsBlankMeans(olds);
        ShorterMeets(lines, chunk, from, DropLast(olds));
      } else {
        EndsBlankMeans(olds);
      }
    }
  }

  /** The second attempt. */
  lemma ShorterMeets(lines: Lines, chunk: UpdateFileChunk, from: nat, shorter: Lines)
    requires chunk.oldLines == shorter + [""] && Found(lines, chunk.oldLines, from, chunk.isEndOfFile, None)
    ensures match Seek(lines, shorter, from, chunk.isEndOfFile)
            case Some(i) =>
              var newLines := if EndsBlank(chunk.newLines) then DropLast(chunk.newLines) else chunk.newLines;
              Replaced(lines, chunk, from, Replacement(i, |shorter|, newLines))
            case None => Missing(lines, chunk, from)
  {
    SeekFinds(lines, shorter, from, chunk.isEndOfFile);
    EndsBlankMeans(chunk.newLines);
    var r := Seek(lines, shorter, from, chunk.isEndOfFile);
    if r.Some? {
      var newLines := if EndsBlank(chunk.newLines) then DropLast(chunk.newLines) else chunk.newLines;
      assert ReplacedShorter(lines, chunk, shorter, from, Replacement(r.value, |shorter|, newLines));
    } else {
      forall other | chunk.oldLines == other + [""]
        ensures Found(lines, other, from, chunk.isEndOfFile, None)
      {
        assert other == chunk.oldLines[..|shorter|] == shorter;
      }
    }
  }

  lemma ScheduleOneMeets(lines: Lines, chunk: UpdateFileChunk, lineIndex: nat)
    ensures Meets(lines, chunk, lineIndex, ScheduleOne(lines, chunk, lineIndex))
  {
    if chunk.changeContext.Some? {
      SeekFinds(lines, [chunk.changeContext.value], lineIndex, false);
    }
    var from := AfterContext(lines, chunk, lineIndex);
    if from.Some? {
      assert SearchedFrom(lines, chunk, lineIndex, from.value);
      if chunk.oldLines == [] {
        AdditionMeets(lines, chunk);
      } else {
        LocateMeets(lines, chunk, from.value);
      }
    }
  }

  lemma AdditionMeets(lines: Lines, chunk: UpdateFileChunk)
    ensures Added(lines, chunk, Replacement(InsertionPoint(lines), 0, chunk.newLines))
  {
    EndsBlankMeans(lines);
    assert lines[..|lines|] == lines;
  }

  /** The schedule is the one outcome that meets all chunks in turn. */
  lemma {:induction false} ScheduleMeets(lines: Lines, chunks: seq<UpdateFileChunk>, lineIndex: nat)
    ensures MeetAll(lines, chunks, lineIndex, Schedule(lines, chunks, lineIndex))
    decreases |chunks|
  {
    if chunks != [] {
      var one := ScheduleOne(lines, chunks[0], lineIndex);
      ScheduleOneMeets(lines, chunks[0], lineIndex);
      if one.Ok? {
        ScheduleMeets(lines, chunks[1..], one.value.1);
        assert Schedule(lines, chunks, lineIndex) == Preceded(one.value.0, Schedule(lines, chunks[1..], one.value.1));
      }
    }
  }

  /** No chunk, whatever it asks for, is scheduled beyond the last line. */
  lemma ScheduleOneInBounds(lines: Lines, chunk: UpdateFileChunk, lineIndex: nat)
    requires lineIndex <= |lines|
    ensures var s := ScheduleOne(lines, chunk, lineIndex);
            s.Ok? ==> s.value.0.End() <= |lines| && s.value.1 <= |lines|
    ensures var s := ScheduleOne(lines, chunk, lineIndex);
            s.Ok? && !chunk.isEndOfFile && chunk.oldLines != [] ==> lineIndex <= s.value.0.start && s.value.1 == s.value.0.End()
    ensures var s := ScheduleOne(lines, chunk, lineIndex);
            s.Ok? && chunk.oldLines == [] ==> s.value.0.start == InsertionPoint(lines) && s.value.0.oldLen == 0 && lineIndex <= s.value.1
  {
    if chunk.changeContext.Some? {
      SeekInBounds(lines, [chunk.changeContext.value], lineIndex, false);
    }
    var from := AfterContext(lines, chunk, lineIndex);
    if from.Some? && chunk.oldLines != [] {
      SeekInBounds(lines, chunk.oldLines, from.value, chunk.isEndOfFile);
      SeekInBounds(lines, DropLast(chunk.oldLines), from.value, chunk.isEndOfFile);
    }
  }

  ghost predicate InBounds(rs: seq<Replacement>, bound: nat) {
    forall i :: 0 <= i < |rs| ==> rs[i].End() <= bound
  }

  lemma {:induction false} ScheduleInBounds(lines: Lines, chunks: seq<UpdateFileChunk>, lineIndex: nat)
    requires lineIndex <= |lines|
    ensures var s := Schedule(lines, chunks, lineIndex); s.Ok? ==> InBounds(s.value, |lines|)
  {
    if chunks != [] {
      ScheduleOneInBounds(lines, chunks[0], lineIndex);
      var one := ScheduleOne(lines, chunks[0], lineIndex);
      if one.Ok? {
        ScheduleInBounds(lines, chunks[1..], one.value.1);
      }
    }
  }

  // ----- The stable sort by start line

  /** Puts `r`, which arrived before all of `sorted`, in front of the first entry that does not start earlier. */
  function InsertByStart(r: Replacement, sorted: seq<Replacement>): seq<Replacement> {
    if sorted == [] || r.start <= sorted[0].start then [r] + sorted
    else [sorted[0]] + InsertByStart(r, sorted[1..])
  }

  function StableSort(rs: seq<Replacement>): seq<Replacement> {
    if rs == [] then [] else InsertByStart(rs[0], StableSort(rs[1..]))
  }

  /** Each start is at most every later one. */
  ghost predicate Sorted(rs: seq<Replacement>) {
    rs == [] || ((forall q :: q in rs[1..] ==> rs[0].start <= q.start) && Sorted(rs[1..]))
  }

  /** The entries with a given start, in order: what a stable sort must not disturb. */
  function WithStart(rs: seq<Replacement>, start: nat): seq<Replacement> {
    if rs == [] then []
    else (if rs[0].start == start then [rs[0]] else []) + WithStart(rs[1..], start)
  }

  lemma {:induction false} InsertKeepsElements(r: Replacement, sorted: seq<Replacement>)
    ensures multiset(InsertByStart(r, sorted)) == multiset{r} + multiset(sorted)
  {
    if sorted != [] && r.start > sorted[0].start {
      InsertKeepsElements(r, sorted[1..]);
      assert sorted == [sorted[0]] + sorted[1..];
    }
  }

  lemma InsertMembers(r: Replacement, sorted: seq<Replacement>)
    ensures forall q :: q in InsertByStart(r, sorted) <==> q == r || q in sorted
  {
    InsertKeepsElements(r, sorted);
    var all := InsertByStart(r, sorted);
    assert forall q :: q in all <==> q in multiset(all);
    assert forall q :: q in sorted <==> q in multiset(sorted);
  }

  lemma {:induction false} InsertSorts(r: Replacement, sorted: seq<Replacement>)
    requires Sorted(sorted)
    ensures Sorted(InsertByStart(r, sorted))
  {
    if sorted == [] || r.start <= sorted[0].start {
      assert ([r] + sorted)[1..] == sorted;
    } else {
      var tail := InsertByStart(r, sorted[1..]);
      InsertSorts(r, sorted[1..]);
      InsertMembers(r, sorted[1..]);
      assert ([sorted[0]] + tail)[1..] == tail;
    }
  }

  lemma {:induction false} InsertIsStable(r: Replacement, sorted: seq<Replacement>, k: nat)
    ensures WithStart(InsertByStart(r, sorted), k) == WithStart([r] + sorted, k)
  {
    assert ([r] + sorted)[1..] == sorted;
    if sorted != [] && r.start > sorted[0].start {
      var tail := InsertByStart(r, sorted[1..]);
      InsertIsStable(r, sorted[1..], k);
      assert ([sorted[0]] + tail)[1..] == tail;
      assert ([r] + sorted[1..])[1..] == sorted[1..];
    }
  }

  /** The sort orders by start, keeps every replacement, and keeps the order of those with equal starts. */
  lemma {:induction false} StableSortSorts(rs: seq<Replacement>)
    ensures Sorted(StableSort(rs))
    ensures multiset(StableSort(rs)) == multiset(rs)
    ensures forall q :: q in StableSort(rs) <==> q in rs
    ensures forall k :: WithStart(StableSort(rs), k) == WithStart(rs, k)
  {
    if rs != [] {
      var tail := StableSort(rs[1..]);
      StableSortSorts(rs[1..]);
      InsertSorts(rs[0], tail);
      InsertKeepsElements(rs[0], tail);
      InsertMembers(rs[0], tail);
      assert rs == [rs[0]] + rs[1..];
      forall k
        ensures WithStart(StableSort(rs), k) == WithStart(rs, k)
      {
        InsertIsStable(rs[0], tail, k);
        assert ([rs[0]] + tail)[1..] == tail;
      }
    }
  }

  lemma SortKeepsBounds(rs: seq<Replacement>, bound: nat)
    requires InBounds(rs, bound)
    ensures InBounds(StableSort(rs), bound)
  {
    StableSortSorts(rs);
    assert forall i :: 0 <= i < |StableSort(rs)| ==> StableSort(rs)[i] in rs;
  }

  // ----- Disjointness

  ghost predicate EndsBefore(r: Replacement, rs: seq<Replacement>) {
    forall q :: q in rs ==> r.End() <= q.start
  }

  /** In a sorted list: each range ends before every later one begins. */
  ghost predicate Disjoint(rs: seq<Replacement>) {
    rs == [] || (EndsBefore(rs[0], rs[1..]) && Disjoint(rs[1..]))
  }

  /** `p` arrived before `q`: their ranges do not meet, in the order in which the sort leaves them. */
  predicate Compatible(p: Replacement, q: Replacement) {
    p.End() <= q.start || (q.End() <= p.start && q.start < p.start)
  }

  ghost predicate CompatibleWith(r: Replacement, rs: seq<Replacement>) {
    forall q :: q in rs ==> Compatible(r, q)
  }

  ghost predicate PairwiseCompatible(rs: seq<Replacement>) {
    rs == [] || (CompatibleWith(rs[0], rs[1..]) && PairwiseCompatible(rs[1..]))
  }

  lemma {:induction false} InsertDisjoint(r: Replacement, sorted: seq<Replacement>)
    requires Sorted(sorted)
    ensures Disjoint(InsertByStart(r, sorted)) <==> Disjoint(sorted) && CompatibleWith(r, sorted)
  {
    if sorted == [] || r.start <= sorted[0].start {
      assert ([r] + sorted)[1..] == sorted;
      FirstCompatible(r, sorted);
    } else {
      var head, tail := sorted[0], InsertByStart(r, sorted[1..]);
      InsertDisjoint(r, sorted[1..]);
      assert ([head] + tail)[1..] == tail;
      InsertMembers(r, sorted[1..]);
      LaterCompatible(r, head, sorted[1..]);
      assert sorted == [head] + sorted[1..];
    }
  }

  /** What sorts before all others is compatible with them when it ends before them. */
  lemma FirstCompatible(r: Replacement, sorted: seq<Replacement>)
    requires Sorted(sorted) && (sorted == [] || r.start <= sorted[0].start)
    ensures CompatibleWith(r, sorted) <==> EndsBefore(r, sorted)
  {
    assert forall q :: q in sorted ==> (Compatible(r, q) <==> r.End() <= q.start);
  }

  lemma LaterCompatible(r: Replacement, head: Replacement, rest: seq<Replacement>)
    requires head.start < r.start
    ensures CompatibleWith(r, [head] + rest) <==> head.End() <= r.start && CompatibleWith(r, rest)
  {
    assert forall q :: q in [head] + rest <==> q == head || q in rest;
    assert Compatible(r, head) <==> head.End() <= r.start;
  }

  /** Sorting separates the ranges exactly when no two of them clash in arrival order. */
  lemma {:induction false} SortedDisjointIffCompatible(rs: seq<Replacement>)
    ensures Disjoint(StableSort(rs)) <==> PairwiseCompatible(rs)
  {
    if rs != [] {
      SortedDisjointIffCompatible(rs[1..]);
      StableSortSorts(rs[1..]);
      InsertDisjoint(rs[0], StableSort(rs[1..]));
    }
  }

  // ----- Which chunks are scheduled apart

  /**
   Whether a chunk's replacement keeps clear of the earlier ones, of which those
   that start within the file end at `furthest` at the latest. What is tied to the
   end of the file, a pure addition included, must not start before that. What is
   searched for from the line index on can only straddle that line, when it is an
   addition before a final blank line.
   */
  predicate Admits(chunk: UpdateFileChunk, r: Replacement, furthest: nat) {
    if chunk.oldLines == [] || (chunk.isEndOfFile && r.oldLen > 0) then furthest <= r.start
    else r.oldLen == 0 || r.End() <= furthest || furthest <= r.start
  }

  function Furthest(lines: Lines, r: Replacement, furthest: nat): nat {
    if r.start < |lines| && furthest < r.End() then r.End() else furthest
  }

  /** Every chunk that is scheduled is admitted after the earlier ones. */
  predicate Guarded(lines: Lines, chunks: seq<UpdateFileChunk>, lineIndex: nat, furthest: nat) {
    chunks == [] ||
    match ScheduleOne(lines, chunks[0], lineIndex)
    case Err(_) => true
    case Ok((r, next)) =>
      Admits(chunks[0], r, furthest) && Guarded(lines, chunks[1..], next, Furthest(lines, r, furthest))
  }

  /** What is known of the replacements scheduled so far. */
  ghost predicate Summary(lines: Lines, earlier: seq<Replacement>, lineIndex: nat, furthest: nat) {
    && lineIndex <= |lines| && furthest <= |lines|
    && (forall e :: e in earlier ==> e.End() <= |lines|)
    && (forall e :: e in earlier ==> e.End() <= lineIndex || (e.oldLen == 0 && |lines| <= e.start + 1))
    && (forall e :: e in earlier && e.start < |lines| ==> e.End() <= furthest)
    && (furthest > 0 ==> exists e :: e in earlier && e.start < |lines| && e.End() == furthest)
  }

  /** Where one chunk is placed, and where the next one is searched from. */
  lemma ScheduleOnePlaces(lines: Lines, chunk: UpdateFileChunk, lineIndex: nat)
    requires lineIndex <= |lines| && ScheduleOne(lines, chunk, lineIndex).Ok?
    ensures var (r, next) := ScheduleOne(lines, chunk, lineIndex).value;
            && r.End() <= |lines| && lineIndex <= next <= |lines|
            && (chunk.oldLines == [] ==> r.start == InsertionPoint(lines) && r.oldLen == 0)
            && (chunk.oldLines != [] ==> next == r.End())
            && (chunk.oldLines != [] && chunk.isEndOfFile && r.oldLen > 0 ==> r.End() == |lines|)
            && (chunk.oldLines != [] && (!chunk.isEndOfFile || r.oldLen == 0) ==> lineIndex <= r.start)
  {
    ScheduleOneInBounds(lines, chunk, lineIndex);
    var from := AfterContext(lines, chunk, lineIndex).value;
    if chunk.changeContext.Some? {
      SeekInBounds(lines, [chunk.changeContext.value], lineIndex, false);
    }
    if chunk.oldLines != [] {
      SeekInBounds(lines, chunk.oldLines, from, chunk.isEndOfFile);
      SeekInBounds(lines, DropLast(chunk.oldLines), from, chunk.isEndOfFile);
      SeekAtEnd(lines, chunk.oldLines, from);
      SeekAtEnd(lines, DropLast(chunk.oldLines), from);
    }
  }

  /** A chunk is admitted exactly when its replacement is compatible with every earlier one. */
  lemma AdmitsIffCompatible(lines: Lines, earlier: seq<Replacement>, lineIndex: nat, furthest: nat, chunk: UpdateFileChunk)
    requires Summary(lines, earlier, lineIndex, furthest) && ScheduleOne(lines, chunk, lineIndex).Ok?
    ensures var r := ScheduleOne(lines, chunk, lineIndex).value.0;
            Admits(chunk, r, furthest) <==> forall e :: e in earlier ==> Compatible(e, r)
  {
    ScheduleOnePlaces(lines, chunk, lineIndex);
    var r := ScheduleOne(lines, chunk, lineIndex).value.0;
    if !Admits(chunk, r, furthest) {
      var e :| e in earlier && e.start < |lines| && e.End() == furthest;
      assert !Compatible(e, r);
    }
  }

  lemma SummaryStep(lines: Lines, earlier: seq<Replacement>, lineIndex: nat, furthest: nat, chunk: UpdateFileChunk)
    requires Summary(lines, earlier, lineIndex, furthest) && ScheduleOne(lines, chunk, lineIndex).Ok?
    ensures var (r, next) := ScheduleOne(lines, chunk, lineIndex).value;
            Summary(lines, earlier + [r], next, Furthest(lines, r, furthest))
  {
    ScheduleOnePlaces(lines, chunk, lineIndex);
    var (r, next) := ScheduleOne(lines, chunk, lineIndex).value;
    var later := Furthest(lines, r, furthest);
    if later > 0 {
      if later == furthest {
        var e :| e in earlier && e.start < |lines| && e.End() == furthest;
        assert e in earlier + [r];
      } else {
        assert r in earlier + [r];
      }
    }
  }

  ghost predicate CompatibleAfter(earlier: seq<Replacement>, rs: seq<Replacement>) {
    forall e :: e in earlier ==> CompatibleWith(e, rs)
  }

  lemma {:induction false} GuardedIffCompatible(lines: Lines, chunks: seq<UpdateFileChunk>, lineIndex: nat,
                                                earlier: seq<Replacement>, furthest: nat)
    requires Summary(lines, earlier, lineIndex, furthest) && Schedule(lines, chunks, lineIndex).Ok?
    ensures var rs := Schedule(lines, chunks, lineIndex).value;
            Guarded(lines, chunks, lineIndex, furthest) <==> PairwiseCompatible(rs) && CompatibleAfter(earlier, rs)
  {
    if chunks != [] {
      var (r, next) := ScheduleOne(lines, chunks[0], lineIndex).value;
      var rest := Schedule(lines, chunks[1..], next).value;
      AdmitsIffCompatible(lines, earlier, lineIndex, furthest, chunks[0]);
      SummaryStep(lines, earlier, lineIndex, furthest, chunks[0]);
      GuardedIffCompatible(lines, chunks[1..], next, earlier + [r], Furthest(lines, r, furthest));
      CompatibleSplit(earlier, r, rest);
    }
  }

  lemma CompatibleSplit(earlier: seq<Replacement>, r: Replacement, rest: seq<Replacement>)
    ensures PairwiseCompatible([r] + rest) && CompatibleAfter(earlier, [r] + rest) <==>
            (forall e :: e in earlier ==> Compatible(e, r)) && PairwiseCompatible(rest) && CompatibleAfter(earlier + [r], rest)
  {
    assert ([r] + rest)[1..] == rest;
    assert forall q :: q in [r] + rest <==> q == r || q in rest;
    assert forall e :: e in earlier + [r] <==> e == r || e in earlier;
    assert CompatibleAfter(earlier + [r], rest) <==> CompatibleAfter(earlier, rest) && CompatibleWith(r, rest);
    assert CompatibleAfter(earlier, [r] + rest) <==>
           CompatibleAfter(earlier, rest) && forall e :: e in earlier ==> Compatible(e, r) by {
      assert forall e :: CompatibleWith(e, [r] + rest) <==> CompatibleWith(e, rest) && Compatible(e, r);
    }
  }

  /** No chunk is tied to the end of the file, and lines are added only to a file that does not end in a blank line. */
  ghost predicate Orderly(lines: Lines, chunks: seq<UpdateFileChunk>) {
    forall i :: 0 <= i < |chunks| ==>
      !chunks[i].isEndOfFile && (chunks[i].oldLines == [] ==> !EndsBlank(lines))
  }

  /** Chunks of the common kind are always guarded, wherever they are found. */
  lemma {:induction false} OrderlyIsGuarded(lines: Lines, chunks: seq<UpdateFileChunk>, lineIndex: nat, furthest: nat)
    requires furthest <= lineIndex <= |lines| && Orderly(lines, chunks)
    ensures Guarded(lines, chunks, lineIndex, furthest)
  {
    if chunks != [] && ScheduleOne(lines, chunks[0], lineIndex).Ok? {
      ScheduleOnePlaces(lines, chunks[0], lineIndex);
      var (r, next) := ScheduleOne(lines, chunks[0], lineIndex).value;
      OrderlyIsGuarded(lines, chunks[1..], next, Furthest(lines, r, furthest));
    }
  }

  // ----- Applying

  /** The replaced lines, by copying what lies between the ranges. */
  function Splice(lines: Lines, rs: seq<Replacement>, pos: nat): Lines
    requires Sorted(rs) && Disjoint(rs) && InBounds(rs, |lines|)
    requires pos <= |lines| && (rs != [] ==> pos <= rs[0].start)
  {
    if rs == [] then lines[pos..]
    else lines[pos..rs[0].start] + rs[0].newLines + Splice(lines, rs[1..], rs[0].End())
  }

  /** One in-place edit: removes up to `oldLen` lines at `start`, then inserts. */
  function Edit(lines: Lines, r: Replacement): Lines
    requires r.start <= |lines|
  {
    lines[..r.start] + r.newLines + lines[if r.End() <= |lines| then r.End() else |lines|..]
  }

  ghost predicate StartsWithin(rs: seq<Replacement>, bound: nat) {
    forall i :: 0 <= i < |rs| ==> rs[i].start <= bound
  }

  /** The edits from the last to the first. Lines before the first start are untouched, so each edit is in range. */
  function EditAll(lines: Lines, rs: seq<Replacement>): (out: Lines)
    requires Sorted(rs) && StartsWithin(rs, |lines|)
    ensures rs == [] ==> out == lines
    ensures rs != [] ==> rs[0].start <= |out| && out[..rs[0].start] == lines[..rs[0].start]
  {
    if rs == [] then lines
    else
      var out := EditAll(lines, rs[1..]);
      assert |rs| > 1 ==> rs[1] in rs[1..];
      assert |rs| > 1 ==> out[..rs[1].start][..rs[0].start] == lines[..rs[1].start][..rs[0].start];
      Edit(out, rs[0])
  }

  lemma EditAfterPrefix(lines: Lines, rest: Lines, r: Replacement, pos: nat)
    requires pos <= r.start && r.End() <= |lines|
    ensures Edit(lines[..r.End()] + rest, r) == lines[..pos] + (lines[pos..r.start] + r.newLines + rest)
  {
    var out := lines[..r.End()] + rest;
    assert out[..r.start] == lines[..r.start] == lines[..pos] + lines[pos..r.start];
    assert out[r.End()..] == rest;
  }

  /** Disjoint edits in descending order are the simple splice. */
  lemma {:induction false} EditAllIsSplice(lines: Lines, rs: seq<Replacement>, pos: nat)
    requires Sorted(rs) && Disjoint(rs) && InBounds(rs, |lines|)
    requires pos <= |lines| && (rs != [] ==> pos <= rs[0].start)
    ensures EditAll(lines, rs) == lines[..pos] + Splice(lines, rs, pos)
  {
    if rs == [] {
      assert lines == lines[..pos] + lines[pos..];
    } else {
      var r := rs[0];
      var rest := Splice(lines, rs[1..], r.End());
      EditAllIsSplice(lines, rs[1..], r.End());
      EditAfterPrefix(lines, rest, r, pos);
    }
  }

  /** Deletes lines one at a time at `start`. */
  method RemoveLines(lines: Lines, start: nat, count: nat) returns (out: Lines)
    requires start <= |lines|
    ensures out == lines[..start] + lines[if start + count <= |lines| then start + count else |lines|..]
  {
    out := lines;
    for k := 0 to count
      invariant out == lines[..start] + lines[if start + k <= |lines| then start + k else |lines|..]
    {
      if start < |out| {
        out := out[..start] + out[start + 1..];
      }
    }
  }

  /** Inserts lines one at a time from `start` on. */
  method InsertLines(lines: Lines, start: nat, newLines: Lines) returns (out: Lines)
    requires start <= |lines|
    ensures out == lines[..start] + newLines + lines[start..]
  {
    out := lines;
    for offset := 0 to |newLines|
      invariant out == lines[..start] + newLines[..offset] + lines[start..]
    {
      var pos := start + offset;
      out := out[..pos] + [newLines[offset]] + out[pos..];
    }
    assert newLines[..|newLines|] == newLines;
  }

  lemma {:induction false} SortedSuffix(rs: seq<Replacement>, i: nat)
    requires Sorted(rs) && i <= |rs|
    ensures Sorted(rs[i..])
  {
    if i > 0 {
      assert rs[i..] == rs[1..][i - 1..];
      SortedSuffix(rs[1..], i - 1);
    } else {
      assert rs[0..] == rs;
    }
  }

  /** Applies sorted replacements in place, last first, without ever leaving the list. */
  method ApplyReplacements(lines: Lines, replacements: seq<Replacement>) returns (out: Lines)
    requires Sorted(replacements) && StartsWithin(replacements, |lines|)
    ensures out == EditAll(lines, replacements)
  {
    out := lines;
    var i := |replacements| - 1;
    while i >= 0
      invariant -1 <= i < |replacements|
      invariant Sorted(replacements[i + 1..])
      invariant out == EditAll(lines, replacements[i + 1..])
    {
      var r := replacements[i];
      assert replacements[i..][1..] == replacements[i + 1..];
      SortedSuffix(replacements, i);
      assert i + 1 < |replacements| ==> replacements[i + 1] in replacements[i..][1..];
      var cut := RemoveLines(out, r.start, r.oldLen);
      assert cut[..r.start] == out[..r.start];
      out := InsertLines(cut, r.start, r.newLines);
      i := i - 1;
    }
    assert replacements[0..] == replacements;
  }

  // ----- The whole update

  function ComputedReplacements(lines: Lines, chunks: seq<UpdateFileChunk>): Result<seq<Replacement>, ComputeError> {
    match Schedule(lines, chunks, 0)
    case Err(e) => Err(e)
    case Ok(rs) => Ok(StableSort(rs))
  }

  /** `r` holds the replacements of `s`, ordered by their start lines; those with one start keep their order. */
  ghost predicate SortedFrom(s: Result<seq<Replacement>, ComputeError>, r: Result<seq<Replacement>, ComputeError>) {
    match s
    case Err(e) => r == Err(e)
    case Ok(rs) =>
      && r.Ok? && Sorted(r.value) && multiset(r.value) == multiset(rs)
      && forall k :: WithStart(r.value, k) == WithStart(rs, k)
  }

  /** The result is the one outcome that meets all chunks in turn, sorted. */
  lemma ComputedReplacementsMeet(lines: Lines, chunks: seq<UpdateFileChunk>)
    ensures exists s :: MeetAll(lines, chunks, 0, s) && SortedFrom(s, ComputedReplacements(lines, chunks))
  {
    var s := Schedule(lines, chunks, 0);
    ScheduleMeets(lines, chunks, 0);
    if s.Ok? {
      StableSortSorts(s.value);
    }
    assert SortedFrom(s, ComputedReplacements(lines, chunks));
  }

  /** Whatever the chunks, the result is sorted and in bounds, so that applying it is safe. */
  lemma ComputedReplacementsSafe(lines: Lines, chunks: seq<UpdateFileChunk>)
    ensures var c := ComputedReplacements(lines, chunks);
            c.Ok? ==> Sorted(c.value) && InBounds(c.value, |lines|) && StartsWithin(c.value, |lines|)
  {
    ScheduleInBounds(lines, chunks, 0);
    var s := Schedule(lines, chunks, 0);
    if s.Ok? {
      StableSortSorts(s.value);
      SortKeepsBounds(s.value, |lines|);
    }
  }

  /**
   The replacements are disjoint exactly when every chunk is guarded, and then
   they replace exactly their own ranges and copy every other line.
   */
  lemma GuardedChunksSplice(lines: Lines, chunks: seq<UpdateFileChunk>)
    ensures var c := ComputedReplacements(lines, chunks);
            c.Ok? ==> && Sorted(c.value) && InBounds(c.value, |lines|)
                      && (Disjoint(c.value) <==> Guarded(lines, chunks, 0, 0))
                      && (Disjoint(c.value) ==> EditAll(lines, c.value) == Splice(lines, c.value, 0))
  {
    ComputedReplacementsSafe(lines, chunks);
    var s := Schedule(lines, chunks, 0);
    if s.Ok? {
      GuardedIffCompatible(lines, chunks, 0, [], 0);
      SortedDisjointIffCompatible(s.value);
      if Disjoint(StableSort(s.value)) {
        EditAllIsSplice(lines, StableSort(s.value), 0);
        assert lines[..0] == [];
      }
    }
  }

  /** The two attempts at the old lines of a chunk. */
  method LocateLines(lines: Lines, chunk: UpdateFileChunk, lineIndex: nat) returns (r: Option<Replacement>)
    ensures r == Locate(lines, chunk, lineIndex)
  {
    var pattern, newSlice := chunk.oldLines, chunk.newLines;
    var found := SeekSequence.SeekSequence(lines, pattern, lineIndex, chunk.isEndOfFile);
    if found.None? && |pattern| > 0 && pattern[|pattern| - 1] == "" {
      pattern := DropLast(pattern);
      if |newSlice| > 0 && newSlice[|newSlice| - 1] == "" {
        newSlice := DropLast(newSlice);
      }
      found := SeekSequence.SeekSequence(lines, pattern, lineIndex, chunk.isEndOfFile);
    }
    if found.None? {
      return None;
    }
    r := Some(Replacement(found.value, |pattern|, newSlice));
  }

  /** One iteration of the scheduling loop. */
  method ScheduleChunk(lines: Lines, chunk: UpdateFileChunk, lineIndex0: nat)
    returns (r: Result<(Replacement, nat), ComputeError>)
    ensures r == ScheduleOne(lines, chunk, lineIndex0)
    ensures Meets(lines, chunk, lineIndex0, r)
  {
    ScheduleOneMeets(lines, chunk, lineIndex0);
    var lineIndex := lineIndex0;
    if chunk.changeContext.Some? {
      var idx := SeekSequence.SeekSequence(lines, [chunk.changeContext.value], lineIndex, false);
      if idx.None? {
        return Err(ContextNotFound(chunk.changeContext.value));
      }
      lineIndex := idx.value + 1;
    }
    assert AfterContext(lines, chunk, lineIndex0) == Some(lineIndex);
    if |chunk.oldLines| == 0 {
      var insertionIdx := |lines|;
      if |lines| > 0 && lines[|lines| - 1] == "" {
        insertionIdx := |lines| - 1;
      }
      return Ok((Replacement(insertionIdx, 0, chunk.newLines), lineIndex));
    }
    var found := LocateLines(lines, chunk, lineIndex);
    if found.None? {
      return Err(LinesNotFound(chunk.oldLines));
    }
    r := Ok((found.value, found.value.End()));
  }

  /** The schedule of the remaining chunks, after the replacements already made. */
  function Continue(done: seq<Replacement>, rest: Result<seq<Replacement>, ComputeError>): Result<seq<Replacement>, ComputeError> {
    match rest
    case Err(e) => Err(e)
    case Ok(rs) => Ok(done + rs)
  }

  lemma ContinueEmpty(rest: Result<seq<Replacement>, ComputeError>)
    ensures Continue([], rest) == rest
  {
    if rest.Ok? {
      assert [] + rest.value == rest.value;
    }
  }

  lemma {:induction false} ContinueStep(lines: Lines, chunks: seq<UpdateFileChunk>, i: nat, lineIndex: nat, done: seq<Replacement>)
    requires i < |chunks|
    ensures Continue(done, Schedule(lines, chunks[i..], lineIndex)) ==
            match ScheduleOne(lines, chunks[i], lineIndex)
            case Err(e) => Err(e)
            case Ok((r, next)) => Continue(done + [r], Schedule(lines, chunks[i + 1..], next))
  {
    assert chunks[i..][1..] == chunks[i + 1..];
    var one := ScheduleOne(lines, chunks[i], lineIndex);
    if one.Ok? {
      var rest := Schedule(lines, chunks[i + 1..], one.value.1);
      if rest.Ok? {
        assert done + ([one.value.0] + rest.value) == done + [one.value.0] + rest.value;
      }
    }
  }

  method ComputeReplacements(lines: Lines, chunks: seq<UpdateFileChunk>)
    returns (r: Result<seq<Replacement>, ComputeError>)
    ensures r == ComputedReplacements(lines, chunks)
    ensures exists s :: MeetAll(lines, chunks, 0, s) && SortedFrom(s, r)
  {
    ComputedReplacementsMeet(lines, chunks);
    var replacements: seq<Replacement> := [];
    var lineIndex: nat := 0;
    assert chunks[0..] == chunks;
    ContinueEmpty(Schedule(lines, chunks, 0));
    for i := 0 to |chunks|
      invariant Schedule(lines, chunks, 0) == Continue(replacements, Schedule(lines, chunks[i..], lineIndex))
    {
      ContinueStep(lines, chunks, i, lineIndex, replacements);
      var one := ScheduleChunk(lines, chunks[i], lineIndex);
      if one.Err? {
        return Err(one.error);
      }
      replacements := replacements + [one.value.0];
      lineIndex := one.value.1;
    }
    assert chunks[|chunks|..] == [] && replacements + [] == replacements;
    r := Ok(StableSort(replacements));
  }

  /** The lines of a file; a final newline does not start another line. */
  function FileLines(text: string): Lines {
    var lines := Split(text);
    if EndsBlank(lines) then DropLast(lines) else lines
  }

  /** The text of the new lines, always with a final newline. */
  function FileText(lines: Lines): string {
    Join(if EndsBlank(lines) then lines else lines + [""])
  }

  function DerivedContents(text: string, chunks: seq<UpdateFileChunk>): Result<string, ComputeError> {
    var lines := FileLines(text);
    match ComputedReplacements(lines, chunks)
    case Err(e) => Err(e)
    case Ok(rs) =>
      ComputedReplacementsSafe(lines, chunks);
      Ok(FileText(EditAll(lines, rs)))
  }

  method DeriveNewContents(text: string, chunks: seq<UpdateFileChunk>) returns (r: Result<string, ComputeError>)
    ensures r == DerivedContents(text, chunks)
  {
    var lines := FileLines(text);
    var replacements := ComputeReplacements(lines, chunks);
    if replacements.Err? {
      return Err(replacements.error);
    }
    ComputedReplacementsSafe(lines, chunks);
    var newLines := ApplyReplacements(lines, replacements.value);
    if |newLines| == 0 || newLines[|newLines| - 1] != "" {
      newLines := newLines + [""];
    }
    r := Ok(Join(newLines));
  }

  // ----- The final newline

  lemma {:induction false} JoinSnoc(lines: Lines, line: string)
    requires lines != []
    ensures Join(lines + [line]) == Join(lines) + "\n" + line
  {
    assert (lines + [line])[1..] == lines[1..] + [line];
    if |lines| == 1 {
      assert lines[1..] + [line] == [line];
    } else {
      JoinSnoc(lines[1..], line);
      var l, m := lines[0], Join(lines[1..]);
      assert l + "\n" + (m + "\n" + line) == l + "\n" + m + "\n" + line;
    }
  }

  lemma FileTextEnds(lines: Lines)
    ensures var text := FileText(lines); text == "" || text[|text| - 1] == '\n'
  {
    if EndsBlank(lines) && |lines| > 1 {
      var n := |lines| - 1;
      JoinSnoc(lines[..n], "");
      assert lines == lines[..n] + [""];
    } else if !EndsBlank(lines) && lines != [] {
      JoinSnoc(lines, "");
    }
  }

  /** Every text that comes out of chunks is empty or ends in a newline, whatever the file ended in. */
  lemma DerivedEnds(text: string, chunks: seq<UpdateFileChunk>)
    ensures var r := DerivedContents(text, chunks);
            r.Ok? ==> r.value == "" || r.value[|r.value| - 1] == '\n'
  {
    var lines := FileLines(text);
    var rs := ComputedReplacements(lines, chunks);
    if rs.Ok? {
      ComputedReplacementsSafe(lines, chunks);
      FileTextEnds(EditAll(lines, rs.value));
    }
  }

  /** The text ends with exactly one newline, after some other character. */
  predicate OneFinalNewline(text: string) {
    |text| >= 2 && text[|text| - 1] == '\n' && text[|text| - 2] != '\n'
  }

  /**
   Reading a file and writing its lines back unedited keeps the text exactly
   when it is empty or ends with a single newline: a missing final newline is
   added, and of several final newlines one is lost.
   */
  lemma FileRoundTrip(text: string)
    ensures FileText(FileLines(text)) == text <==> text == "" || OneFinalNewline(text)
    ensures text != "" && text[|text| - 1] != '\n' ==> FileText(FileLines(text)) == text + "\n"
    ensures text != "" && text[|text| - 1] == '\n' && !OneFinalNewline(text) ==>
              FileText(FileLines(text)) == text[..|text| - 1]
  {
    SplitEndsBlank(text);
    if text == "" {
      assert FileLines(text) == [];
    } else if text[|text| - 1] == '\n' {
      var s := text[..|text| - 1];
      assert text == s + "\n";
      SplitSnoc(s);
      SplitEndsBlank(s);
      JoinSplit(s);
      assert FileLines(text) == Split(s);
      JoinSnoc(Split(s), "");
    } else {
      JoinSplit(text);
      JoinSnoc(Split(text), "");
    }
  }

  // ----- Why the hypotheses of the splice are needed

  /** The exact pass decides when it matches. */
  lemma SeekExact(lines: Lines, pattern: Lines, start: nat, eof: bool, i: nat)
    requires pattern != [] && Leftmost(Transform(Exact), lines, pattern, SearchStart(lines, pattern, start, eof), i)
    ensures Seek(lines, pattern, start, eof) == Some(i)
  {
    FirstMatchIsLeftmost(Transform(Exact), lines, pattern, SearchStart(lines, pattern, start, eof));
  }

  /** What two chunks amount to. */
  lemma TwoChunks(lines: Lines, c: UpdateFileChunk, d: UpdateFileChunk, p: Replacement, q: Replacement, i: nat, j: nat)
    requires ScheduleOne(lines, c, 0) == Ok((p, i)) && ScheduleOne(lines, d, i) == Ok((q, j))
    ensures ComputedReplacements(lines, [c, d]) == Ok(if p.start <= q.start then [p, q] else [q, p])
  {
    ScheduleCons(lines, d, [], i);
    ScheduleCons(lines, c, [d], 0);
    assert [d] + [] == [d] && [c] + [d] == [c, d];
    assert [q] + [] == [q] && [p] + [q] == [p, q];
    SortTwo(p, q);
  }

  lemma {:induction false} ScheduleCons(lines: Lines, chunk: UpdateFileChunk, rest: seq<UpdateFileChunk>, lineIndex: nat)
    ensures Schedule(lines, [chunk] + rest, lineIndex) ==
            match ScheduleOne(lines, chunk, lineIndex)
            case Err(e) => Err(e)
            case Ok((r, next)) => Continue([r], Schedule(lines, rest, next))
  {
    assert ([chunk] + rest)[1..] == rest;
  }

  lemma SortTwo(p: Replacement, q: Replacement)
    ensures StableSort([p, q]) == if p.start <= q.start then [p, q] else [q, p]
  {
    assert [p, q][1..] == [q] && [q][1..] == [];
    assert StableSort([q]) == [q];
    assert InsertByStart(p, []) == [p];
  }

  /** An End-of-File chunk may overlap an earlier chunk, whose edit is then lost. */
  lemma EndOfFileChunkMayOverlap()
    ensures var lines := ["a", "b"];
            var chunks := [UpdateFileChunk(None, ["b"], ["X"], false), UpdateFileChunk(None, ["a", "b"], ["Y"], true)];
            var p, q := Replacement(1, 1, ["X"]), Replacement(0, 2, ["Y"]);
            && ComputedReplacements(lines, chunks) == Ok([q, p])
            && !Disjoint([q, p]) && Sorted([q, p]) && StartsWithin([q, p], |lines|)
            && EditAll(lines, [q, p]) == ["Y"]
  {
    var lines := ["a", "b"];
    var c, d := UpdateFileChunk(None, ["b"], ["X"], false), UpdateFileChunk(None, ["a", "b"], ["Y"], true);
    var p, q := Replacement(1, 1, ["X"]), Replacement(0, 2, ["Y"]);
    assert Transform(Exact)(lines[0 + 0]) == "a" != Transform(Exact)(["b"][0]);
    SeekExact(lines, ["b"], 0, false, 1);
    SeekExact(lines, ["a", "b"], 2, true, 0);
    TwoChunks(lines, c, d, p, q, 2, 2);
    EditTwo(lines, q, p);
    assert p in [q, p][1..];
  }

  /** Lines added before a final blank line are lost when an earlier chunk replaces that line. */
  lemma AdditionBeforeBlankMayBeLost()
    ensures var lines := ["a", ""];
            var chunks := [UpdateFileChunk(None, [""], ["Z"], false), UpdateFileChunk(None, [], ["N"], false)];
            var p, q := Replacement(1, 1, ["Z"]), Replacement(1, 0, ["N"]);
            && ComputedReplacements(lines, chunks) == Ok([p, q])
            && !Disjoint([p, q]) && Sorted([p, q]) && StartsWithin([p, q], |lines|)
            && EditAll(lines, [p, q]) == ["a", "Z", ""]
  {
    var lines := ["a", ""];
    var c, d := UpdateFileChunk(None, [""], ["Z"], false), UpdateFileChunk(None, [], ["N"], false);
    var p, q := Replacement(1, 1, ["Z"]), Replacement(1, 0, ["N"]);
    assert Transform(Exact)(lines[0 + 0]) == "a" != Transform(Exact)([""][0]);
    SeekExact(lines, [""], 0, false, 1);
    TwoChunks(lines, c, d, p, q, 2, 2);
    EditTwo(lines, p, q);
    assert q in [p, q][1..];
  }

  lemma EditTwo(lines: Lines, p: Replacement, q: Replacement)
    requires p.start <= q.start <= |lines|
    ensures Sorted([p, q]) && StartsWithin([p, q], |lines|)
    ensures p.start <= |Edit(lines, q)| && EditAll(lines, [p, q]) == Edit(Edit(lines, q), p)
  {
    assert [p, q][1..] == [q] && [q][1..] == [];
    assert EditAll(lines, []) == lines;
    assert EditAll(lines, [q]) == Edit(lines, q);
  }
}
