/**
 Grouping an edit script into unified-diff hunks and giving each its header
 (internal/applypatch/diff.go), checked against a strict patch program.
 */
module Hunks {

  import opened EditScript
  import opened PatchTypes

  // ----- Grouping

  /** The half-open range of ops that a group takes from the script. */
  datatype Cut = Cut(lo: nat, hi: nat)

  predicate IsChange(op: LineOp) {
    op.kind != Equal
  }

  predicate AllEqual(ops: seq<LineOp>, i: nat, j: nat) {
    forall t :: i <= t < j && t < |ops| ==> !IsChange(ops[t])
  }

  /** Op `i` is a change or at most `context` ops away from one. */
  ghost predicate Near(ops: seq<LineOp>, context: nat, i: int) {
    exists j :: 0 <= j < |ops| && i - context <= j <= i + context && IsChange(ops[j])
  }

  ghost predicate Covered(cuts: seq<Cut>, i: int) {
    exists g :: 0 <= g < |cuts| && cuts[g].lo <= i < cuts[g].hi
  }

  /** Non-empty ranges below `bound`, in order, with at least one op between neighbours. */
  ghost predicate Separated(cuts: seq<Cut>, bound: nat) {
    && (forall g :: 0 <= g < |cuts| ==> cuts[g].lo < cuts[g].hi <= bound)
    && (forall g, h :: 0 <= g < h < |cuts| ==> cuts[g].hi < cuts[h].lo)
  }

  /** Each group is the slice of the script that its cut names. */
  ghost predicate Slices(ops: seq<LineOp>, groups: seq<seq<LineOp>>, cuts: seq<Cut>) {
    && |groups| == |cuts|
    && Separated(cuts, |ops|)
    && forall g :: 0 <= g < |cuts| ==> groups[g] == ops[cuts[g].lo..cuts[g].hi]
  }

  /** The groups are the maximal runs of ops that are near a change. */
  ghost predicate IsGrouping(ops: seq<LineOp>, context: nat, groups: seq<seq<LineOp>>, cuts: seq<Cut>) {
    && Slices(ops, groups, cuts)
    && forall i :: 0 <= i < |ops| ==> (Covered(cuts, i) <==> Near(ops, context, i))
  }

  /** Inside a run of equal ops, only the borders that touch a change count. */
  lemma NearInRun(ops: seq<LineOp>, context: nat, i: nat, j: nat, t: nat)
    requires i <= t < j <= |ops| && AllEqual(ops, i, j)
    requires i == 0 || IsChange(ops[i - 1])
    requires j == |ops| || IsChange(ops[j])
    ensures Near(ops, context, t) <==> (0 < i && t - (i - 1) <= context) || (j < |ops| && j - t <= context)
  {
    if 0 < i && t - (i - 1) <= context {
      assert IsChange(ops[i - 1]);
    }
    if j < |ops| && j - t <= context {
      assert IsChange(ops[j]);
    }
  }

  /** What the grouping loop knows at op `i`, with `ops[lo..i]` as the open group. */
  ghost predicate Progress(ops: seq<LineOp>, context: nat, groups: seq<seq<LineOp>>, cuts: seq<Cut>, lo: nat, i: nat) {
    && lo <= i <= |ops|
    && Slices(ops, groups, cuts)
    && (forall g :: 0 <= g < |cuts| ==> cuts[g].hi < lo)
    && forall t :: 0 <= t < i ==> (Covered(cuts, t) || lo <= t <==> Near(ops, context, t))
  }

  lemma CoveredAppend(cuts: seq<Cut>, cut: Cut, t: int)
    ensures Covered(cuts + [cut], t) <==> Covered(cuts, t) || cut.lo <= t < cut.hi
  {
    var cuts' := cuts + [cut];
    if Covered(cuts, t) {
      var g :| 0 <= g < |cuts| && cuts[g].lo <= t < cuts[g].hi;
      assert cuts'[g].lo <= t < cuts'[g].hi;
    }
    if cut.lo <= t < cut.hi {
      assert cuts'[|cuts|].lo <= t < cuts'[|cuts|].hi;
    }
  }

  lemma SlicesAppend(ops: seq<LineOp>, groups: seq<seq<LineOp>>, cuts: seq<Cut>, lo: nat, end: nat)
    requires Slices(ops, groups, cuts) && lo < end <= |ops|
    requires forall g :: 0 <= g < |cuts| ==> cuts[g].hi < lo
    ensures Slices(ops, groups + [ops[lo..end]], cuts + [Cut(lo, end)])
  {
  }

  /** A change joins the open group. */
  lemma TakeChange(ops: seq<LineOp>, context: nat, groups: seq<seq<LineOp>>, cuts: seq<Cut>, lo: nat, i: nat)
    requires Progress(ops, context, groups, cuts, lo, i) && i < |ops| && IsChange(ops[i])
    ensures Progress(ops, context, groups, cuts, lo, i + 1)
  {
    assert Near(ops, context, i);
  }

  /** A run of equal ops between `i` and `j`, with the changes at its borders. */
  ghost predicate IsRun(ops: seq<LineOp>, i: nat, j: nat) {
    && i < j <= |ops| && AllEqual(ops, i, j)
    && (i == 0 || IsChange(ops[i - 1]))
    && (j == |ops| || IsChange(ops[j]))
  }

  /** A leading run contributes only its last lines. */
  lemma OpenFirst(ops: seq<LineOp>, context: nat, lo: nat, j: nat)
    requires IsRun(ops, 0, j) && j < |ops|
    requires lo == if context > j then 0 else j - context
    ensures Progress(ops, context, [], [], lo, j)
  {
    forall t | 0 <= t < j
      ensures lo <= t <==> Near(ops, context, t)
    {
      NearInRun(ops, context, 0, j, t);
    }
  }

  /** A gap that both neighbouring changes reach is kept whole. */
  lemma Bridge(ops: seq<LineOp>, context: nat, groups: seq<seq<LineOp>>, cuts: seq<Cut>, lo: nat, i: nat, j: nat)
    requires Progress(ops, context, groups, cuts, lo, i) && IsRun(ops, i, j) && lo < i && j < |ops|
    requires j - i <= 2 * context
    ensures Progress(ops, context, groups, cuts, lo, j)
  {
    forall t: nat | i <= t < j
      ensures Near(ops, context, t)
    {
      NearInRun(ops, context, i, j, t);
    }
  }

  /** A wider gap closes the group and opens the next one. */
  lemma SplitAtGap(ops: seq<LineOp>, context: nat, groups: seq<seq<LineOp>>, cuts: seq<Cut>, lo: nat, i: nat, j: nat)
    requires Progress(ops, context, groups, cuts, lo, i) && IsRun(ops, i, j) && lo < i && j < |ops|
    requires j - i > 2 * context
    ensures Progress(ops, context, groups + [ops[lo..i + context]], cuts + [Cut(lo, i + context)], j - context, j)
  {
    SlicesAppend(ops, groups, cuts, lo, i + context);
    var cuts' := cuts + [Cut(lo, i + context)];
    forall t: nat | t < j
      ensures Covered(cuts', t) || j - context <= t <==> Near(ops, context, t)
    {
      CoveredAppend(cuts, Cut(lo, i + context), t);
      if i <= t {
        NearInRun(ops, context, i, j, t);
      }
    }
  }

  /** Closing the last group, after up to `context` lines of the trailing run. */
  lemma Close(ops: seq<LineOp>, context: nat, groups: seq<seq<LineOp>>, cuts: seq<Cut>, lo: nat, i: nat, end: nat)
    requires Progress(ops, context, groups, cuts, lo, i) && lo < i
    requires i == |ops| || IsRun(ops, i, |ops|)
    requires end == if context > |ops| - i then |ops| else i + context
    ensures IsGrouping(ops, context, groups + [ops[lo..end]], cuts + [Cut(lo, end)])
  {
    SlicesAppend(ops, groups, cuts, lo, end);
    forall t: nat | t < |ops|
      ensures Covered(cuts + [Cut(lo, end)], t) <==> Near(ops, context, t)
    {
      CoveredAppend(cuts, Cut(lo, end), t);
      if i <= t {
        NearInRun(ops, context, i, |ops|, t);
      }
    }
  }

  method HasChange(ops: seq<LineOp>) returns (r: bool)
    ensures r <==> !AllEqual(ops, 0, |ops|)
  {
    for i := 0 to |ops|
      invariant AllEqual(ops, 0, i)
    {
      if IsChange(ops[i]) {
        return true;
      }
    }
    return false;
  }

  /** The end of the run of equal ops that starts at `i`. */
  method EqualRunEnd(ops: seq<LineOp>, i: nat) returns (j: nat)
    requires i < |ops| && !IsChange(ops[i])
    ensures i < j <= |ops| && AllEqual(ops, i, j)
    ensures j == |ops| || IsChange(ops[j])
  {
    j := i;
    while j < |ops| && !IsChange(ops[j])
      invariant i <= j <= |ops| && AllEqual(ops, i, j)
    {
      j := j + 1;
    }
  }

  lemma SliceJoin(ops: seq<LineOp>, lo: nat, i: nat, k: nat)
    requires lo <= i <= k <= |ops|
    ensures ops[lo..i] + ops[i..k] == ops[lo..k]
  {
  }

  /** Leading run: only its last lines are pre-context for the next change. */
  method LeadingRun(ops: seq<LineOp>, context: nat, j: nat) returns (current: seq<LineOp>, ghost lo: nat)
    requires IsRun(ops, 0, j) && j < |ops|
    ensures Progress(ops, context, [], [], lo, j) && lo <= j && current == ops[lo..j]
  {
    var keep := if context > j then j else context;
    OpenFirst(ops, context, j - keep, j);
    current, lo := ops[j - keep..j], j - keep;
  }

  /** Trailing run: keep its first lines and close the group. */
  method TrailingRun(ops: seq<LineOp>, context: nat, groups0: seq<seq<LineOp>>, current: seq<LineOp>, i: nat,
                     ghost cuts0: seq<Cut>, ghost lo: nat)
    returns (groups: seq<seq<LineOp>>, ghost cuts: seq<Cut>)
    requires Progress(ops, context, groups0, cuts0, lo, i) && IsRun(ops, i, |ops|) && lo < i && current == ops[lo..i]
    ensures IsGrouping(ops, context, groups, cuts)
  {
    var runLen := |ops| - i;
    var keep := if context > runLen then runLen else context;
    ghost var end := i + keep;
    Close(ops, context, groups0, cuts0, lo, i, end);
    SliceJoin(ops, lo, i, end);
    var last := current + ops[i..i + keep];
    assert last == ops[lo..end];
    groups, cuts := groups0 + [last], cuts0 + [Cut(lo, end)];
  }

  /** Large gap: close the group and open the next one. */
  method LargeGap(ops: seq<LineOp>, context: nat, groups0: seq<seq<LineOp>>, current0: seq<LineOp>, i: nat, j: nat,
                  ghost cuts0: seq<Cut>, ghost lo: nat)
    returns (groups: seq<seq<LineOp>>, current: seq<LineOp>, ghost cuts: seq<Cut>)
    requires Progress(ops, context, groups0, cuts0, lo, i) && IsRun(ops, i, j) && lo < i && current0 == ops[lo..i]
    requires j < |ops| && j - i > 2 * context
    ensures Progress(ops, context, groups, cuts, j - context, j) && current == ops[j - context..j]
  {
    SplitAtGap(ops, context, groups0, cuts0, lo, i, j);
    SliceJoin(ops, lo, i, i + context);
    groups, cuts := groups0 + [current0 + ops[i..i + context]], cuts0 + [Cut(lo, i + context)];
    current := ops[j - context..j];
  }

  /** Handles the run of equal ops between `i` and `j`: drops it, keeps it, or splits the group there. */
  method AbsorbRun(ops: seq<LineOp>, context: nat, groups0: seq<seq<LineOp>>, current0: seq<LineOp>, i: nat, j: nat,
                   ghost cuts0: seq<Cut>, ghost lo0: nat)
    returns (groups: seq<seq<LineOp>>, current: seq<LineOp>, ghost cuts: seq<Cut>, ghost lo: nat)
    requires Progress(ops, context, groups0, cuts0, lo0, i) && IsRun(ops, i, j)
    requires current0 == ops[lo0..i]
    requires lo0 == i ==> i == 0 && groups0 == [] && j < |ops|
    ensures j < |ops| ==> Progress(ops, context, groups, cuts, lo, j) && current == ops[lo..j]
    ensures j == |ops| ==> IsGrouping(ops, context, groups, cuts) && current == []
  {
    groups, current, cuts, lo := groups0, current0, cuts0, lo0;
    if |current| == 0 {
      current, lo := LeadingRun(ops, context, j);
      assert groups == [] && cuts == [];
    } else if j >= |ops| {
      groups, cuts := TrailingRun(ops, context, groups, current, i, cuts, lo);
      current := [];
    } else if j - i <= 2 * context {
      // Small gap: the two changes share a group.
      Bridge(ops, context, groups, cuts, lo, i, j);
      SliceJoin(ops, lo, i, j);
      current := current + ops[i..j];
    } else {
      groups, current, cuts := LargeGap(ops, context, groups, current, i, j, cuts, lo);
      lo := j - context;
    }
  }

  /**
   Splits a script into groups: an op is in a group exactly when it is near a
   change, and ops near changes share a group exactly when nothing was dropped
   between them.
   */
  method GroupOps(ops: seq<LineOp>, context: nat) returns (groups: seq<seq<LineOp>>, ghost cuts: seq<Cut>)
    ensures IsGrouping(ops, context, groups, cuts)
  {
    groups, cuts := [], [];
    var hasChange := HasChange(ops);
    if !hasChange {
      return;
    }
    var current: seq<LineOp> := [];
    ghost var lo: nat := 0;
    var i := 0;
    while i < |ops|
      invariant i < |ops| || current != [] ==> Progress(ops, context, groups, cuts, lo, i) && current == ops[lo..i]
      invariant i == |ops| && current == [] ==> IsGrouping(ops, context, groups, cuts)
      invariant 0 <= i <= |ops|
      invariant i == 0 ==> groups == []
      invariant current == [] && i < |ops| ==> i == 0 || IsChange(ops[i])
      invariant 0 < i < |ops| && !IsChange(ops[i]) ==> IsChange(ops[i - 1])
    {
      if IsChange(ops[i]) {
        TakeChange(ops, context, groups, cuts, lo, i);
        current := current + [ops[i]];
        i := i + 1;
      } else {
        var j := EqualRunEnd(ops, i);
        assert i == 0 ==> j < |ops|;
        groups, current, cuts, lo := AbsorbRun(ops, context, groups, current, i, j, cuts, lo);
        i := j;
      }
    }
    if |current| > 0 {
      Close(ops, context, groups, cuts, lo, i, i);
      groups, cuts := groups + [current], cuts + [Cut(lo, i)];
    }
  }

  // ----- Headers

  datatype HunkLine = HunkLine(tag: char, text: Line)

  datatype DiffHunk = DiffHunk(oldStart: int, oldLen: nat, newStart: int, newLen: nat, body: seq<HunkLine>)

  /** The body of a hunk: one tagged line per op. */
  function Body(group: seq<LineOp>, a: seq<Line>, b: seq<Line>): (r: seq<HunkLine>)
    requires InRange(group, a, b)
    ensures OldBody(r) == OldSide(group, a, b)
    ensures NewBody(r) == NewSide(group, a, b)
  {
    if group == [] then []
    else
      [match group[0].kind
       case Equal => HunkLine(' ', a[group[0].oldIndex])
       case Delete => HunkLine('-', a[group[0].oldIndex])
       case Insert => HunkLine('+', b[group[0].newIndex])]
      + Body(group[1..], a, b)
  }

  /** What a reader of the hunk takes to be its old lines: context and removals. */
  function OldBody(body: seq<HunkLine>): seq<Line> {
    if body == [] then []
    else (if body[0].tag == '+' then [] else [body[0].text]) + OldBody(body[1..])
  }

  /** What a reader of the hunk takes to be its new lines: context and additions. */
  function NewBody(body: seq<HunkLine>): seq<Line> {
    if body == [] then []
    else (if body[0].tag == '-' then [] else [body[0].text]) + NewBody(body[1..])
  }

  /** The old position of the first op that has one, or -1. */
  function FirstOld(group: seq<LineOp>): int {
    if group == [] then -1 else if group[0].kind != Insert then group[0].oldIndex else FirstOld(group[1..])
  }

  function FirstNew(group: seq<LineOp>): int {
    if group == [] then -1 else if group[0].kind != Delete then group[0].newIndex else FirstNew(group[1..])
  }

  ghost predicate NonNegative(group: seq<LineOp>) {
    forall i :: 0 <= i < |group| ==> group[i].oldIndex >= 0 && group[i].newIndex >= 0
  }

  lemma {:induction false} CountsSnoc(group: seq<LineOp>, i: nat)
    requires i < |group|
    ensures OldCount(group[..i + 1]) == OldCount(group[..i]) + if group[i].kind == Insert then 0 else 1
    ensures NewCount(group[..i + 1]) == NewCount(group[..i]) + if group[i].kind == Delete then 0 else 1
    ensures FirstOld(group[..i + 1]) ==
            if OldCount(group[..i]) == 0 && group[i].kind != Insert then group[i].oldIndex else FirstOld(group[..i])
    ensures FirstNew(group[..i + 1]) ==
            if NewCount(group[..i]) == 0 && group[i].kind != Delete then group[i].newIndex else FirstNew(group[..i])
  {
    if i > 0 {
      assert group[..i + 1][1..] == group[1..][..i];
      assert group[..i][1..] == group[1..][..i - 1];
      CountsSnoc(group[1..], i - 1);
    } else {
      assert group[..1][1..] == [];
    }
  }

  /** The 1-based start and the length of both sides; an empty side gets start 0. */
  method HunkRanges(group: seq<LineOp>) returns (oldStart: int, oldLen: nat, newStart: int, newLen: nat)
    requires NonNegative(group)
    ensures oldLen == OldCount(group) && newLen == NewCount(group)
    ensures oldStart == if oldLen == 0 then 0 else FirstOld(group) + 1
    ensures newStart == if newLen == 0 then 0 else FirstNew(group) + 1
  {
    oldStart, newStart, oldLen, newLen := -1, -1, 0, 0;
    for i := 0 to |group|
      invariant oldLen == OldCount(group[..i]) && newLen == NewCount(group[..i])
      invariant oldStart == FirstOld(group[..i]) && newStart == FirstNew(group[..i])
      invariant oldStart < 0 <==> oldLen == 0
      invariant newStart < 0 <==> newLen == 0
    {
      CountsSnoc(group, i);
      var op := group[i];
      match op.kind
      case Equal =>
        if oldStart < 0 {
          oldStart := op.oldIndex;
        }
        if newStart < 0 {
          newStart := op.newIndex;
        }
        oldLen := oldLen + 1;
        newLen := newLen + 1;
      case Delete =>
        if oldStart < 0 {
          oldStart := op.oldIndex;
        }
        oldLen := oldLen + 1;
      case Insert =>
        if newStart < 0 {
          newStart := op.newIndex;
        }
        newLen := newLen + 1;
    }
    assert group[..|group|] == group;
    oldStart := if oldLen == 0 then 0 else oldStart + 1;
    newStart := if newLen == 0 then 0 else newStart + 1;
  }

  function HunkOf(group: seq<LineOp>, a: seq<Line>, b: seq<Line>): DiffHunk
    requires InRange(group, a, b)
  {
    DiffHunk(
      if OldCount(group) == 0 then 0 else FirstOld(group) + 1, OldCount(group),
      if NewCount(group) == 0 then 0 else FirstNew(group) + 1, NewCount(group),
      Body(group, a, b))
  }

  /** The first index of a side is the position at which the path enters it. */
  lemma {:induction false} PathFirst(group: seq<LineOp>, a: seq<Line>, b: seq<Line>, x: nat, y: nat, x': nat, y': nat)
    requires IsPath(group, a, b, x, y, x', y')
    ensures OldCount(group) > 0 ==> FirstOld(group) == x
    ensures NewCount(group) > 0 ==> FirstNew(group) == y
    ensures NonNegative(group)
  {
    if group != [] {
      PathFirst(group[1..], a, b, NextOld(group[0], x), NextNew(group[0], y), x', y');
      assert forall i :: 0 < i < |group| ==> group[i] == group[1..][i - 1];
    }
  }

  // ----- A strict patch program

  /** Where a range with this header lies: after `start` lines if it is empty, else from line `start` on. */
  function Position(start: int, len: nat): int {
    if len == 0 then start else start - 1
  }

  /**
   A hunk is accepted at old position `pos`, with `written` new lines already
   produced, only if both header positions fit and its old lines are there.
   */
  predicate Fits(lines: seq<Line>, h: DiffHunk, pos: nat, written: nat) {
    var at := Position(h.oldStart, h.oldLen);
    && pos <= at && at + h.oldLen <= |lines|
    && written + (at - pos) == Position(h.newStart, h.newLen)
    && OldBody(h.body) == lines[at..at + h.oldLen]
    && |NewBody(h.body)| == h.newLen
  }

  /** Applies hunks to the old lines, copying what lies between them. */
  function Patch(lines: seq<Line>, hunks: seq<DiffHunk>, pos: nat, written: nat): Option<seq<Line>> {
    if hunks == [] then
      if pos <= |lines| then Some(lines[pos..]) else None
    else if Fits(lines, hunks[0], pos, written) then
      var h := hunks[0];
      var at := Position(h.oldStart, h.oldLen);
      match Patch(lines, hunks[1..], at + h.oldLen, Position(h.newStart, h.newLen) + h.newLen)
      case None => None
      case Some(rest) => Some(lines[pos..at] + NewBody(h.body) + rest)
    else None
  }

  /** From op `from` on, the cuts are in order and every op outside them is equal. */
  ghost predicate Chopped(ops: seq<LineOp>, cuts: seq<Cut>, from: nat) {
    if cuts == [] then from <= |ops| && AllEqual(ops, from, |ops|)
    else
      && from <= cuts[0].lo < cuts[0].hi <= |ops|
      && AllEqual(ops, from, cuts[0].lo)
      && Chopped(ops, cuts[1..], cuts[0].hi)
  }

  /** The header of an empty side, start 0, is right exactly when nothing precedes the group on that side. */
  predicate Faithful(ops: seq<LineOp>, cut: Cut)
    requires cut.lo <= cut.hi <= |ops|
  {
    && (OldCount(ops[cut.lo..cut.hi]) == 0 ==> OldCount(ops[..cut.lo]) == 0)
    && (NewCount(ops[cut.lo..cut.hi]) == 0 ==> NewCount(ops[..cut.lo]) == 0)
  }

  ghost predicate AllFaithful(ops: seq<LineOp>, cuts: seq<Cut>) {
    forall g :: 0 <= g < |cuts| ==> cuts[g].lo <= cuts[g].hi <= |ops| && Faithful(ops, cuts[g])
  }

  /** Every op of the script names existing lines, so every slice of it does. */
  lemma {:induction false} SliceInRange(ops: seq<LineOp>, a: seq<Line>, b: seq<Line>, lo: nat, hi: nat)
    requires lo <= hi <= |ops| && InRange(ops, a, b)
    ensures InRange(ops[lo..hi], a, b)
    decreases hi
  {
    if lo > 0 {
      assert ops[lo..hi] == ops[1..][lo - 1..hi - 1];
      SliceInRange(ops[1..], a, b, lo - 1, hi - 1);
    } else if hi > 0 {
      assert ops[0..hi][1..] == ops[1..][0..hi - 1];
      SliceInRange(ops[1..], a, b, 0, hi - 1);
    }
  }

  /** The hunks that `writeHunk` is asked to write, one per cut. */
  function HunksOf(ops: seq<LineOp>, a: seq<Line>, b: seq<Line>, cuts: seq<Cut>): (r: seq<DiffHunk>)
    requires InRange(ops, a, b)
    requires forall g :: 0 <= g < |cuts| ==> cuts[g].lo <= cuts[g].hi <= |ops|
    ensures |r| == |cuts|
  {
    if cuts == [] then []
    else
      SliceInRange(ops, a, b, cuts[0].lo, cuts[0].hi);
      [HunkOf(ops[cuts[0].lo..cuts[0].hi], a, b)] + HunksOf(ops, a, b, cuts[1..])
  }

  /** Cutting a script twice: the three pieces are paths, and the counts add up. */
  lemma CutPath(ops: seq<LineOp>, a: seq<Line>, b: seq<Line>, lo: nat, hi: nat)
    requires lo <= hi <= |ops| && ValidScript(ops, a, b)
    ensures var x, y := OldCount(ops[..lo]), NewCount(ops[..lo]);
            var x', y' := OldCount(ops[..hi]), NewCount(ops[..hi]);
            && IsPath(ops[lo..hi], a, b, x, y, x', y')
            && x' == x + OldCount(ops[lo..hi]) && y' == y + NewCount(ops[lo..hi])
            && x <= x' <= |a| && y <= y' <= |b|
  {
    PathSplit(ops, hi, a, b, 0, 0, |a|, |b|);
    var x', y' := OldCount(ops[..hi]), NewCount(ops[..hi]);
    PathSplit(ops[..hi], lo, a, b, 0, 0, x', y');
    assert ops[..hi][..lo] == ops[..lo] && ops[..hi][lo..] == ops[lo..hi];
    PathEnd(ops[..hi], a, b, 0, 0, x', y');
    PathEnd(ops[lo..hi], a, b, OldCount(ops[..lo]), NewCount(ops[..lo]), x', y');
  }

  lemma {:induction false} AllEqualCounts(ops: seq<LineOp>)
    requires AllEqual(ops, 0, |ops|)
    ensures OldCount(ops) == NewCount(ops) == |ops|
  {
    if ops != [] {
      assert forall t :: 0 <= t < |ops| - 1 ==> ops[1..][t] == ops[t + 1];
      AllEqualCounts(ops[1..]);
    }
  }

  /** A run of equal ops copies its lines. */
  lemma EqualRunCopies(ops: seq<LineOp>, a: seq<Line>, b: seq<Line>, lo: nat, hi: nat)
    requires lo <= hi <= |ops| && ValidScript(ops, a, b) && AllEqual(ops, lo, hi)
    ensures var x, y := OldCount(ops[..lo]), NewCount(ops[..lo]);
            var x', y' := OldCount(ops[..hi]), NewCount(ops[..hi]);
            && x <= x' <= |a| && y <= y' <= |b| && x' - x == y' - y == hi - lo
            && a[x..x'] == b[y..y']
  {
    var x, y := OldCount(ops[..lo]), NewCount(ops[..lo]);
    var x', y' := OldCount(ops[..hi]), NewCount(ops[..hi]);
    CutPath(ops, a, b, lo, hi);
    assert AllEqual(ops[lo..hi], 0, hi - lo);
    AllEqualCounts(ops[lo..hi]);
    PathSides(ops[lo..hi], a, b, x, y, x', y');
    EqualSidesAgree(ops[lo..hi], a, b);
  }

  lemma EqualTail(ops: seq<LineOp>, a: seq<Line>, b: seq<Line>, from: nat)
    requires from <= |ops| && ValidScript(ops, a, b) && AllEqual(ops, from, |ops|)
    ensures var x, y := OldCount(ops[..from]), NewCount(ops[..from]);
            x <= |a| && y <= |b| && a[x..] == b[y..]
  {
    EqualRunCopies(ops, a, b, from, |ops|);
    assert ops[..|ops|] == ops;
    PathEnd(ops, a, b, 0, 0, |a|, |b|);
    var x, y := OldCount(ops[..from]), NewCount(ops[..from]);
    assert a[x..] == a[x..|a|] && b[y..] == b[y..|b|];
  }

  lemma {:induction false} EqualSidesAgree(ops: seq<LineOp>, a: seq<Line>, b: seq<Line>)
    requires InRange(ops, a, b) && AllEqual(ops, 0, |ops|)
    ensures OldSide(ops, a, b) == NewSide(ops, a, b)
  {
    if ops != [] {
      assert forall t :: 0 <= t < |ops| - 1 ==> ops[1..][t] == ops[t + 1];
      EqualSidesAgree(ops[1..], a, b);
    }
  }

  /** What the header and the body of one hunk say, in terms of the positions of its cut. */
  lemma HunkMeaning(ops: seq<LineOp>, a: seq<Line>, b: seq<Line>, cut: Cut)
    requires cut.lo < cut.hi <= |ops| && ValidScript(ops, a, b) && InRange(ops[cut.lo..cut.hi], a, b)
    ensures var h := HunkOf(ops[cut.lo..cut.hi], a, b);
            var x, y := OldCount(ops[..cut.lo]), NewCount(ops[..cut.lo]);
            var x', y' := OldCount(ops[..cut.hi]), NewCount(ops[..cut.hi]);
            && x <= x' <= |a| && y <= y' <= |b|
            && h.oldLen == x' - x && h.newLen == y' - y && h.oldLen + h.newLen > 0
            && Position(h.oldStart, h.oldLen) == (if x' == x then 0 else x)
            && Position(h.newStart, h.newLen) == (if y' == y then 0 else y)
            && OldBody(h.body) == a[x..x'] && NewBody(h.body) == b[y..y']
  {
    var group := ops[cut.lo..cut.hi];
    var x, y := OldCount(ops[..cut.lo]), NewCount(ops[..cut.lo]);
    var x', y' := OldCount(ops[..cut.hi]), NewCount(ops[..cut.hi]);
    CutPath(ops, a, b, cut.lo, cut.hi);
    PathFirst(group, a, b, x, y, x', y');
    PathSides(group, a, b, x, y, x', y');
    assert group != [];
  }

  /**
   The hunk covers `a[u..x']` and `b[v..y']`, and the lines up to it, from `pos`
   and `written` on, are as many on both sides.
   */
  ghost predicate Describes(a: seq<Line>, b: seq<Line>, h: DiffHunk, pos: nat, written: nat, u: nat, v: nat, x': nat, y': nat) {
    && pos <= u <= x' <= |a| && written <= v <= y' <= |b| && u - pos == v - written
    && h.oldLen == x' - u && h.newLen == y' - v && h.oldLen + h.newLen > 0
    && Position(h.oldStart, h.oldLen) == (if x' == u then 0 else u)
    && Position(h.newStart, h.newLen) == (if y' == v then 0 else v)
    && OldBody(h.body) == a[u..x'] && NewBody(h.body) == b[v..y']
  }

  lemma FitsIfFaithful(a: seq<Line>, b: seq<Line>, h: DiffHunk, pos: nat, written: nat, u: nat, v: nat, x': nat, y': nat)
    requires Describes(a, b, h, pos, written, u, v, x', y')
    ensures Fits(a, h, pos, written) <==> (x' == u ==> u == 0) && (y' == v ==> v == 0)
  {
  }

  /** One step of the patch program. */
  lemma PatchStep(a: seq<Line>, b: seq<Line>, h: DiffHunk, rest: seq<DiffHunk>,
                  pos: nat, written: nat, u: nat, v: nat, x': nat, y': nat)
    requires Describes(a, b, h, pos, written, u, v, x', y') && a[pos..u] == b[written..v]
    ensures Patch(a, [h] + rest, pos, written) == Some(b[written..]) <==>
            (&& (x' == u ==> u == 0) && (y' == v ==> v == 0)
             && Patch(a, rest, x', y') == Some(b[y'..]))
  {
    FitsIfFaithful(a, b, h, pos, written, u, v, x', y');
    assert ([h] + rest)[1..] == rest;
    if Fits(a, h, pos, written) {
      assert b[written..] == (b[written..v] + b[v..y']) + b[y'..];
      var tail := Patch(a, rest, x', y');
      assert Patch(a, [h] + rest, pos, written) ==
             if tail.None? then None else Some((b[written..v] + b[v..y']) + tail.value);
      if tail.Some? {
        PrefixCancel(b[written..v] + b[v..y'], tail.value, b[y'..]);
      }
    }
  }

  lemma PrefixCancel(p: seq<Line>, q: seq<Line>, r: seq<Line>)
    ensures p + q == p + r <==> q == r
  {
    if p + q == p + r {
      assert q == (p + q)[|p|..];
      assert r == (p + r)[|p|..];
    }
  }

  lemma FaithfulHeadAndTail(ops: seq<LineOp>, cuts: seq<Cut>)
    requires cuts != [] && cuts[0].lo <= cuts[0].hi <= |ops|
    ensures AllFaithful(ops, cuts) <==> Faithful(ops, cuts[0]) && AllFaithful(ops, cuts[1..])
  {
    assert forall g :: 0 <= g < |cuts| - 1 ==> cuts[1..][g] == cuts[g + 1];
  }

  /**
   Patching the old lines with the hunks of a script yields the new lines
   exactly when every empty side sits at the start of its text.
   */
  lemma {:induction false} PatchRestores(ops: seq<LineOp>, a: seq<Line>, b: seq<Line>, cuts: seq<Cut>, from: nat)
    requires ValidScript(ops, a, b) && InRange(ops, a, b)
    requires Chopped(ops, cuts, from)
    requires forall g :: 0 <= g < |cuts| ==> cuts[g].lo <= cuts[g].hi <= |ops|
    requires from <= |ops|
    ensures var x, y := OldCount(ops[..from]), NewCount(ops[..from]);
            && x <= |a| && y <= |b|
            && (Patch(a, HunksOf(ops, a, b, cuts), x, y) == Some(b[y..]) <==> AllFaithful(ops, cuts))
    decreases cuts
  {
    if cuts == [] {
      EqualTail(ops, a, b, from);
    } else {
      var cut := cuts[0];
      SliceInRange(ops, a, b, cut.lo, cut.hi);
      EqualRunCopies(ops, a, b, from, cut.lo);
      HunkMeaning(ops, a, b, cut);
      CutPath(ops, a, b, cut.lo, cut.hi);
      PatchRestores(ops, a, b, cuts[1..], cut.hi);
      FaithfulHeadAndTail(ops, cuts);
      PatchStep(a, b, HunkOf(ops[cut.lo..cut.hi], a, b), HunksOf(ops, a, b, cuts[1..]),
                OldCount(ops[..from]), NewCount(ops[..from]),
                OldCount(ops[..cut.lo]), NewCount(ops[..cut.lo]), OldCount(ops[..cut.hi]), NewCount(ops[..cut.hi]));
    }
  }

  // ----- From a grouping to a patch

  /** Cut `i..` of a grouping chops the script from the end of the cut before. */
  lemma {:induction false} GroupingChops(ops: seq<LineOp>, context: nat, groups: seq<seq<LineOp>>, cuts: seq<Cut>, i: nat)
    requires IsGrouping(ops, context, groups, cuts) && i <= |cuts|
    ensures Chopped(ops, cuts[i..], if i == 0 then 0 else cuts[i - 1].hi)
    decreases |cuts| - i
  {
    var from := if i == 0 then 0 else cuts[i - 1].hi;
    var to := if i == |cuts| then |ops| else cuts[i].lo;
    forall t | from <= t < to && t < |ops|
      ensures !IsChange(ops[t])
    {
      assert !Covered(cuts, t);
      assert IsChange(ops[t]) ==> Near(ops, context, t);
    }
    if i < |cuts| {
      GroupingChops(ops, context, groups, cuts, i + 1);
      assert cuts[i..][1..] == cuts[i + 1..];
    }
  }

  lemma {:induction false} OneSidedRun(ops: seq<LineOp>)
    requires OldCount(ops) == 0 || NewCount(ops) == 0
    ensures forall t :: 0 <= t < |ops| ==> IsChange(ops[t])
  {
    if ops != [] {
      OneSidedRun(ops[1..]);
      assert forall t :: 0 < t < |ops| ==> ops[t] == ops[1..][t - 1];
    }
  }

  /** With at least one line of context, a group with an empty side starts the script. */
  lemma ContextMakesFaithful(ops: seq<LineOp>, context: nat, groups: seq<seq<LineOp>>, cuts: seq<Cut>)
    requires IsGrouping(ops, context, groups, cuts) && context >= 1
    ensures AllFaithful(ops, cuts)
  {
    forall g | 0 <= g < |cuts|
      ensures Faithful(ops, cuts[g])
    {
      var cut := cuts[g];
      var group := ops[cut.lo..cut.hi];
      if OldCount(group) == 0 || NewCount(group) == 0 {
        OneSidedRun(group);
        assert IsChange(group[0]) && group[0] == ops[cut.lo];
        assert !Covered(cuts, cut.lo - 1);
        assert cut.lo > 0 ==> Near(ops, context, cut.lo - 1);
        assert ops[..0] == [];
      }
    }
  }

  /** The round trip: patching the old lines with the hunks of a grouping, at full generality. */
  lemma HunkRoundTrip(ops: seq<LineOp>, a: seq<Line>, b: seq<Line>, context: nat,
                      groups: seq<seq<LineOp>>, cuts: seq<Cut>)
    requires ValidScript(ops, a, b) && IsGrouping(ops, context, groups, cuts)
    ensures InRange(ops, a, b)
    ensures Patch(a, HunksOf(ops, a, b, cuts), 0, 0) == Some(b) <==> AllFaithful(ops, cuts)
    ensures context >= 1 ==> Patch(a, HunksOf(ops, a, b, cuts), 0, 0) == Some(b)
  {
    PathSides(ops, a, b, 0, 0, |a|, |b|);
    GroupingChops(ops, context, groups, cuts, 0);
    assert cuts[0..] == cuts && ops[..0] == [];
    PatchRestores(ops, a, b, cuts, 0);
    assert b[0..] == b;
    if context >= 1 {
      ContextMakesFaithful(ops, context, groups, cuts);
    }
  }

  /** Without context the property fails: appending a line to a one-line text. */
  lemma NoContextBreaksHeaders()
    ensures var a, b := ["x\n"], ["x\n", "y\n"];
            var ops := [LineOp(Equal, 0, 0), LineOp(Insert, 1, 1)];
            var cuts := [Cut(1, 2)];
            && ValidScript(ops, a, b)
            && InRange(ops, a, b)
            && IsGrouping(ops, 0, [[LineOp(Insert, 1, 1)]], cuts)
            && Patch(a, HunksOf(ops, a, b, cuts), 0, 0) != Some(b)
  {
    var a, b := ["x\n"], ["x\n", "y\n"];
    var ops := [LineOp(Equal, 0, 0), LineOp(Insert, 1, 1)];
    var cuts := [Cut(1, 2)];
    assert ops[1..] == [LineOp(Insert, 1, 1)] && ops[1..][1..] == [];
    assert ValidScript(ops, a, b);
    var groups := [[LineOp(Insert, 1, 1)]];
    assert ops[1..2] == groups[0];
    assert cuts[0].lo <= 1 < cuts[0].hi;
    assert IsChange(ops[1]) && !IsChange(ops[0]);
    assert forall i :: 0 <= i < 2 ==> (Covered(cuts, i) <==> i == 1);
    assert IsGrouping(ops, 0, groups, cuts);
    HunkRoundTrip(ops, a, b, 0, groups, cuts);
    assert ops[..1] == [LineOp(Equal, 0, 0)] && ops[..1][1..] == [];
    assert OldCount(ops[1..2]) == 0 && OldCount(ops[..1]) == 1;
    assert !Faithful(ops, cuts[0]);
  }
}
