/**
 The unified diff as text (internal/applypatch/diff.go): splitting both texts
 into lines, diffing, grouping and writing the hunks.
 */
module UnifiedDiff {

  import opened EditScript
  import opened Hunks
  import opened PatchTypes
  import opened Text
  import Myers

  // ----- Lines that keep their ends

  /** A line holds at most one newline, at its end, and is not empty. */
  predicate IsLine(line: Line) {
    line != "" && forall i :: 0 <= i < |line| - 1 ==> line[i] != '\n'
  }

  /** Every line but the last is terminated. */
  predicate AreLines(lines: seq<Line>) {
    && (forall i :: 0 <= i < |lines| ==> IsLine(lines[i]))
    && (forall i :: 0 <= i < |lines| - 1 ==> Terminated(lines[i]))
  }

  predicate Terminated(line: Line) {
    line != "" && line[|line| - 1] == '\n'
  }

  /** Splits a text after each newline; the lines concatenate back to the text. */
  method SplitKeepingEnds(text: string) returns (lines: seq<Line>)
    ensures Concat(lines) == text
    ensures AreLines(lines)
  {
    lines := [];
    var start := 0;
    for i := 0 to |text|
      invariant 0 <= start <= i
      invariant Concat(lines) == text[..start]
      invariant WholeLines(lines)
      invariant '\n' !in text[start..i]
    {
      assert text[start..i + 1] == text[start..i] + [text[i]];
      if text[i] == '\n' {
        ConcatAppend(lines, text[start..i + 1]);
        assert text[..start] + text[start..i + 1] == text[..i + 1];
        WholeLineAppend(lines, text[start..i]);
        lines := lines + [text[start..i + 1]];
        start := i + 1;
      }
    }
    if start < |text| {
      ConcatAppend(lines, text[start..]);
      assert text[..start] + text[start..] == text;
      assert IsLine(text[start..]);
      lines := lines + [text[start..]];
    } else {
      assert text[..start] == text;
    }
  }

  predicate WholeLines(lines: seq<Line>) {
    forall t :: 0 <= t < |lines| ==> IsLine(lines[t]) && Terminated(lines[t])
  }

  lemma WholeLineAppend(lines: seq<Line>, s: string)
    requires WholeLines(lines) && '\n' !in s
    ensures WholeLines(lines + [s + ['\n']])
  {
    assert IsLine(s + ['\n']);
  }

  /** Lines of a text are determined by the text. */
  lemma {:induction false} LinesUnique(p: seq<Line>, q: seq<Line>)
    requires AreLines(p) && AreLines(q) && Concat(p) == Concat(q)
    ensures p == q
  {
    if p == [] || q == [] {
      assert p == [] <==> q == [];
    } else {
      FirstLine(p);
      FirstLine(q);
      SameFirstLine(p[0], Concat(p[1..]), q[0], Concat(q[1..]));
      assert Concat(p[1..]) == Concat(p)[|p[0]|..];
      assert Concat(q[1..]) == Concat(q)[|q[0]|..];
      TailAreLines(p);
      TailAreLines(q);
      LinesUnique(p[1..], q[1..]);
      assert p == [p[0]] + p[1..] && q == [q[0]] + q[1..];
    }
  }

  lemma TailAreLines(lines: seq<Line>)
    requires lines != [] && AreLines(lines)
    ensures AreLines(lines[1..])
  {
  }

  /** The first line either ends with a newline or is the whole text. */
  lemma FirstLine(lines: seq<Line>)
    requires lines != [] && AreLines(lines)
    ensures IsLine(lines[0]) && (Terminated(lines[0]) || Concat(lines[1..]) == "")
  {
  }

  lemma SameFirstLine(l: Line, r: string, l': Line, r': string)
    requires IsLine(l) && IsLine(l') && l + r == l' + r'
    requires Terminated(l) || r == ""
    requires Terminated(l') || r' == ""
    ensures l == l'
  {
    var text := l + r;
    assert forall i :: 0 <= i < |l| ==> text[i] == l[i];
    assert forall i :: 0 <= i < |l'| ==> text[i] == l'[i];
    assert |l| == |l'|;
  }

  // ----- Rendering

  /** The length is omitted when it is 1. */
  function FormatRange(start: int, length: nat): string {
    if length == 1 then Decimal(start) else Decimal(start) + "," + Decimal(length)
  }

  /** A hunk line always ends with a newline, even where its text does not. */
  function RenderLine(l: HunkLine): string {
    [l.tag] + l.text + if Terminated(l.text) then "" else "\n"
  }

  function RenderBody(body: seq<HunkLine>): string {
    if body == [] then "" else RenderLine(body[0]) + RenderBody(body[1..])
  }

  function RenderHeader(oldStart: int, oldLen: nat, newStart: int, newLen: nat): (r: string)
    ensures r != ""
  {
    "@@ -" + FormatRange(oldStart, oldLen) + " +" + FormatRange(newStart, newLen) + " @@\n"
  }

  function RenderHunk(h: DiffHunk): (r: string)
    ensures r != ""
  {
    RenderHeader(h.oldStart, h.oldLen, h.newStart, h.newLen) + RenderBody(h.body)
  }

  function Render(hunks: seq<DiffHunk>): (r: string)
    ensures r == "" <==> hunks == []
  {
    if hunks == [] then "" else RenderHunk(hunks[0]) + Render(hunks[1..])
  }

  lemma {:induction false} RenderAppend(hunks: seq<DiffHunk>, h: DiffHunk)
    ensures Render(hunks + [h]) == Render(hunks) + RenderHunk(h)
  {
    if hunks == [] {
      assert hunks + [h] == [h] && [h][1..] == [];
      assert Render([h]) == RenderHunk(h) + Render([]);
    } else {
      assert (hunks + [h])[1..] == hunks[1..] + [h];
      RenderAppend(hunks[1..], h);
    }
  }

  lemma RenderPrefix(hunks: seq<DiffHunk>, g: nat)
    requires g < |hunks|
    ensures Render(hunks[..g + 1]) == Render(hunks[..g]) + RenderHunk(hunks[g])
  {
    assert hunks[..g + 1] == hunks[..g] + [hunks[g]];
    RenderAppend(hunks[..g], hunks[g]);
  }

  lemma {:induction false} RenderBodyAppend(body: seq<HunkLine>, l: HunkLine)
    ensures RenderBody(body + [l]) == RenderBody(body) + RenderLine(l)
  {
    if body == [] {
      assert body + [l] == [l] && [l][1..] == [];
    } else {
      assert (body + [l])[1..] == body[1..] + [l];
      RenderBodyAppend(body[1..], l);
    }
  }

  /** Op `i` of a group is line `i` of its hunk's body. */
  lemma {:induction false} BodyAt(group: seq<LineOp>, a: seq<Line>, b: seq<Line>, i: nat)
    requires InRange(group, a, b) && i < |group|
    ensures |Body(group, a, b)| == |group|
    ensures group[i].kind != Insert ==> 0 <= group[i].oldIndex < |a|
    ensures group[i].kind == Insert ==> 0 <= group[i].newIndex < |b|
    ensures Body(group, a, b)[i] ==
            match group[i].kind
            case Equal => HunkLine(' ', a[group[i].oldIndex])
            case Delete => HunkLine('-', a[group[i].oldIndex])
            case Insert => HunkLine('+', b[group[i].newIndex])
  {
    if group[1..] != [] {
      BodyAt(group[1..], a, b, if i > 0 then i - 1 else 0);
    }
  }

  /** Writes the body of a hunk, op by op. */
  method WriteBody(group: seq<LineOp>, a: seq<Line>, b: seq<Line>) returns (text: string)
    requires InRange(group, a, b)
    ensures text == RenderBody(Body(group, a, b))
  {
    text := "";
    ghost var body := Body(group, a, b);
    if group != [] {
      BodyAt(group, a, b, 0);
    }
    for i := 0 to |group|
      invariant |body| == |group|
      invariant text == RenderBody(body[..i])
    {
      BodyAt(group, a, b, i);
      var line := match group[i].kind
                  case Equal => HunkLine(' ', a[group[i].oldIndex])
                  case Delete => HunkLine('-', a[group[i].oldIndex])
                  case Insert => HunkLine('+', b[group[i].newIndex]);
      RenderBodyAppend(body[..i], line);
      assert body[..i + 1] == body[..i] + [line];
      text := text + RenderLine(line);
    }
    assert body[..|group|] == body;
  }

  /** Writes one hunk. */
  method WriteHunk(group: seq<LineOp>, a: seq<Line>, b: seq<Line>, ghost h: DiffHunk) returns (text: string)
    requires WrittenAs(group, a, b, h)
    ensures text == RenderHunk(h)
  {
    var oldStart, oldLen, newStart, newLen := HunkRanges(group);
    var header := RenderHeader(oldStart, oldLen, newStart, newLen);
    var body := WriteBody(group, a, b);
    text := header + body;
  }

  /** The group can be written, and `h` is what it is written as. */
  ghost predicate WrittenAs(group: seq<LineOp>, a: seq<Line>, b: seq<Line>, h: DiffHunk) {
    InRange(group, a, b) && NonNegative(group) && h == HunkOf(group, a, b)
  }

  /** A hunk between two line lists: its body quotes their lines. */
  predicate Quotes(h: DiffHunk, a: seq<Line>, b: seq<Line>) {
    && h.oldStart >= 0 && h.newStart >= 0
    && forall i :: 0 <= i < |h.body| ==>
         && (h.body[i].tag == ' ' || h.body[i].tag == '-' || h.body[i].tag == '+')
         && (h.body[i].text in a || h.body[i].text in b)
  }

  lemma {:induction false} StartsNonNegative(group: seq<LineOp>)
    requires NonNegative(group)
    ensures FirstOld(group) >= -1 && FirstNew(group) >= -1
  {
    if group != [] {
      assert forall i :: 0 <= i < |group| - 1 ==> group[1..][i] == group[i + 1];
      StartsNonNegative(group[1..]);
    }
  }

  lemma WrittenQuotes(group: seq<LineOp>, a: seq<Line>, b: seq<Line>, h: DiffHunk)
    requires WrittenAs(group, a, b, h)
    ensures Quotes(h, a, b)
  {
    StartsNonNegative(group);
    BodyQuotes(group, a, b);
  }

  lemma {:induction false} BodyQuotes(group: seq<LineOp>, a: seq<Line>, b: seq<Line>)
    requires InRange(group, a, b)
    ensures Quotes(DiffHunk(0, 0, 0, 0, Body(group, a, b)), a, b)
  {
    if group != [] {
      BodyQuotes(group[1..], a, b);
      var body, rest := Body(group, a, b), Body(group[1..], a, b);
      assert forall i :: 0 < i < |body| ==> body[i] == rest[i - 1];
    }
  }

  // ----- The whole diff

  lemma {:induction false} LcsSelf(a: seq<Line>, x: nat)
    requires x <= |a|
    ensures Lcs(a, a, x, x) == |a| - x
    decreases |a| - x
  {
    if x < |a| {
      LcsSelf(a, x + 1);
    }
  }

  /** A script without cost changes nothing, and conversely. */
  lemma {:induction false} NoCostNoChange(ops: seq<LineOp>)
    ensures Cost(ops) == 0 <==> AllEqual(ops, 0, |ops|)
  {
    if ops != [] {
      NoCostNoChange(ops[1..]);
      assert forall t :: 0 < t < |ops| ==> ops[t] == ops[1..][t - 1];
      assert forall t :: 0 <= t < |ops| - 1 ==> ops[1..][t] == ops[t + 1];
    }
  }

  /** There is nothing to write exactly when the two texts are the same. */
  lemma NoGroupsIffEqual(ops: seq<LineOp>, a: seq<Line>, b: seq<Line>, context: nat,
                         groups: seq<seq<LineOp>>, cuts: seq<Cut>)
    requires ValidScript(ops, a, b) && Cost(ops) == |a| + |b| - 2 * Lcs(a, b, 0, 0)
    requires IsGrouping(ops, context, groups, cuts)
    ensures cuts == [] <==> a == b
  {
    NoCostNoChange(ops);
    if a == b {
      LcsSelf(a, 0);
      assert forall t :: 0 <= t < |ops| ==> !Near(ops, context, t);
      assert cuts != [] ==> Covered(cuts, cuts[0].lo);
    }
    if cuts == [] {
      forall t | 0 <= t < |ops|
        ensures !IsChange(ops[t])
      {
        assert IsChange(ops[t]) ==> Near(ops, context, t);
      }
      ScriptTransforms(ops, a, b);
      EqualSidesAgree(ops, a, b);
    }
  }

  /** Hunk `g` is the hunk of cut `g`. */
  lemma {:induction false} HunksOfAt(ops: seq<LineOp>, a: seq<Line>, b: seq<Line>, cuts: seq<Cut>, g: nat)
    requires InRange(ops, a, b) && g < |cuts|
    requires forall h :: 0 <= h < |cuts| ==> cuts[h].lo <= cuts[h].hi <= |ops|
    ensures InRange(ops[cuts[g].lo..cuts[g].hi], a, b)
    ensures HunksOf(ops, a, b, cuts)[g] == HunkOf(ops[cuts[g].lo..cuts[g].hi], a, b)
  {
    SliceInRange(ops, a, b, cuts[g].lo, cuts[g].hi);
    if g > 0 {
      forall h | 0 <= h < |cuts| - 1
        ensures cuts[1..][h].lo <= cuts[1..][h].hi <= |ops|
      {
        assert cuts[1..][h] == cuts[h + 1];
      }
      HunksOfAt(ops, a, b, cuts[1..], g - 1);
    }
  }

  /** Every group of a valid script can be written. */
  lemma GroupsWrittenAs(ops: seq<LineOp>, a: seq<Line>, b: seq<Line>, groups: seq<seq<LineOp>>, cuts: seq<Cut>)
    requires ValidScript(ops, a, b) && InRange(ops, a, b) && Slices(ops, groups, cuts)
    ensures forall g :: 0 <= g < |groups| ==> WrittenAs(groups[g], a, b, HunksOf(ops, a, b, cuts)[g])
  {
    forall g | 0 <= g < |groups|
      ensures WrittenAs(groups[g], a, b, HunksOf(ops, a, b, cuts)[g])
    {
      var cut := cuts[g];
      HunksOfAt(ops, a, b, cuts, g);
      CutPath(ops, a, b, cut.lo, cut.hi);
      PathFirst(groups[g], a, b, OldCount(ops[..cut.lo]), NewCount(ops[..cut.lo]),
                OldCount(ops[..cut.hi]), NewCount(ops[..cut.hi]));
    }
  }

  /** Writes the groups of a script, in order. */
  method WriteHunks(groups: seq<seq<LineOp>>, a: seq<Line>, b: seq<Line>, ghost hunks: seq<DiffHunk>)
    returns (text: string)
    requires |hunks| == |groups|
    requires forall g :: 0 <= g < |groups| ==> WrittenAs(groups[g], a, b, hunks[g])
    ensures text == Render(hunks)
  {
    text := "";
    for g := 0 to |groups|
      invariant text == Render(hunks[..g])
    {
      var piece := WriteHunk(groups[g], a, b, hunks[g]);
      RenderPrefix(hunks, g);
      text := text + piece;
    }
    assert hunks[..|groups|] == hunks;
  }

  /** The hunks are those of the cheapest script with late edits, grouped with this context. */
  ghost predicate HunksBetween(a: seq<Line>, b: seq<Line>, context: nat, ops: seq<LineOp>, cuts: seq<Cut>, hunks: seq<DiffHunk>) {
    && ValidScript(ops, a, b) && Myers.Minimal(ops, a, b) && Myers.EditsLate(ops, a, b) && InRange(ops, a, b)
    && (exists groups :: IsGrouping(ops, context, groups, cuts))
    && hunks == HunksOf(ops, a, b, cuts)
  }

  /**
   The diff of two texts. It is empty exactly when the texts are equal, it shows
   the hunks of the one cheapest script with late edits, and with at least one
   line of context these patch the old lines into the new ones.
   */
  method UnifiedDiff(original: string, updated: string, context: nat)
    returns (text: string, ghost oldLines: seq<Line>, ghost newLines: seq<Line>, ghost ops: seq<LineOp>, ghost cuts: seq<Cut>,
             ghost hunks: seq<DiffHunk>)
    ensures Concat(oldLines) == original && AreLines(oldLines)
    ensures Concat(newLines) == updated && AreLines(newLines)
    ensures HunksBetween(oldLines, newLines, context, ops, cuts, hunks)
    ensures text == Render(hunks) && forall g :: 0 <= g < |hunks| ==> Quotes(hunks[g], oldLines, newLines)
    ensures text == "" <==> original == updated
    ensures context >= 1 ==> Patch(oldLines, hunks, 0, 0) == Some(newLines)
  {
    var a := SplitKeepingEnds(original);
    var b := SplitKeepingEnds(updated);
    oldLines, newLines := a, b;
    if original == updated {
      LinesUnique(a, b);
    }
    var script := Myers.MyersLineDiff(a, b);
    var groups, cut := GroupOps(script, context);
    ops, cuts := script, cut;
    HunkRoundTrip(ops, a, b, context, groups, cuts);
    NoGroupsIffEqual(ops, a, b, context, groups, cuts);
    GroupsWrittenAs(ops, a, b, groups, cuts);
    hunks := HunksOf(ops, a, b, cuts);
    forall g | 0 <= g < |hunks|
      ensures Quotes(hunks[g], a, b)
    {
      WrittenQuotes(groups[g], a, b, hunks[g]);
    }
    text := WriteHunks(groups, a, b, hunks);
  }
}
