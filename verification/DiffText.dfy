/**
 What the text of a unified diff says (internal/applypatch/diff.go): the hunks
 can be read off it, up to the newline that a last line may lack.
 */
module DiffText {

  import opened EditScript
  import opened Hunks
  import opened PatchTypes
  import opened Text
  import opened UnifiedDiff
  import opened Replacements

  // ----- Headers

  predicate RangeChars(s: string) {
    forall i :: 0 <= i < |s| ==> IsDigit(s[i]) || s[i] == ','
  }

  lemma RangeHasNoSpace(start: nat, length: nat)
    ensures RangeChars(FormatRange(start, length))
  {
    DecimalDigits(start);
    DecimalDigits(length);
  }

  /** A range names its start and its length. */
  lemma RangeInjective(start: nat, length: nat, start': nat, length': nat)
    requires FormatRange(start, length) == FormatRange(start', length')
    ensures start == start' && length == length'
  {
    DecimalDigits(start);
    DecimalDigits(length);
    DecimalDigits(start');
    DecimalDigits(length');
    var r, r' := FormatRange(start, length), FormatRange(start', length');
    assert length != 1 ==> r[|Decimal(start)|] == ',';
    assert length' != 1 ==> r'[|Decimal(start')|] == ',';
    if length == 1 || length' == 1 {
      assert length == 1 <==> length' == 1;
    } else {
      CutUnique(',', Decimal(start), Decimal(length), Decimal(start'), Decimal(length'));
      DecimalInjective(length, length');
    }
    DecimalInjective(start, start');
  }

  function HeaderOf(h: DiffHunk): string {
    RenderHeader(h.oldStart, h.oldLen, h.newStart, h.newLen)
  }

  predicate SameRanges(h: DiffHunk, g: DiffHunk) {
    h.oldStart == g.oldStart && h.oldLen == g.oldLen && h.newStart == g.newStart && h.newLen == g.newLen
  }

  /** A header names its four numbers. */
  lemma HeaderInjective(h: DiffHunk, g: DiffHunk)
    requires h.oldStart >= 0 && h.newStart >= 0 && g.oldStart >= 0 && g.newStart >= 0
    requires HeaderOf(h) == HeaderOf(g)
    ensures SameRanges(h, g)
  {
    var was, now := FormatRange(h.oldStart, h.oldLen), FormatRange(h.newStart, h.newLen);
    var was', now' := FormatRange(g.oldStart, g.oldLen), FormatRange(g.newStart, g.newLen);
    RangeHasNoSpace(h.oldStart, h.oldLen);
    RangeHasNoSpace(h.newStart, h.newLen);
    RangeHasNoSpace(g.oldStart, g.oldLen);
    RangeHasNoSpace(g.newStart, g.newLen);
    HeaderParts(was, now);
    HeaderParts(was', now');
    assert HeaderOf(h)[4..] == HeaderOf(g)[4..];
    CutUnique(' ', was, "+" + now + " @@\n", was', "+" + now' + " @@\n");
    assert ("+" + now + " @@\n")[1..] == now + [' '] + "@@\n";
    assert ("+" + now' + " @@\n")[1..] == now' + [' '] + "@@\n";
    CutUnique(' ', now, "@@\n", now', "@@\n");
    RangeInjective(h.oldStart, h.oldLen, g.oldStart, g.oldLen);
    RangeInjective(h.newStart, h.newLen, g.newStart, g.newLen);
  }

  lemma HeaderParts(was: string, now: string)
    ensures ("@@ -" + was + " +" + now + " @@\n")[4..] == was + [' '] + ("+" + now + " @@\n")
  {
  }

  // ----- Lines

  function RenderedBody(body: seq<HunkLine>): seq<string> {
    seq(|body|, i requires 0 <= i < |body| => RenderLine(body[i]))
  }

  function RenderedHunk(h: DiffHunk): seq<string> {
    [HeaderOf(h)] + RenderedBody(h.body)
  }

  function RenderedLines(hunks: seq<DiffHunk>): seq<string> {
    if hunks == [] then [] else RenderedHunk(hunks[0]) + RenderedLines(hunks[1..])
  }

  lemma {:induction false} BodyConcat(body: seq<HunkLine>)
    ensures Concat(RenderedBody(body)) == RenderBody(body)
  {
    if body != [] {
      BodyConcat(body[1..]);
      assert RenderedBody(body)[1..] == RenderedBody(body[1..]);
    }
  }

  lemma {:induction false} LinesConcat(hunks: seq<DiffHunk>)
    ensures Concat(RenderedLines(hunks)) == Render(hunks)
  {
    if hunks != [] {
      var h := hunks[0];
      LinesConcat(hunks[1..]);
      BodyConcat(h.body);
      assert RenderedHunk(h)[1..] == RenderedBody(h.body);
      ConcatJoins(RenderedHunk(h), RenderedLines(hunks[1..]));
    }
  }

  /** A hunk that can stand in a diff. */
  predicate Readable(h: DiffHunk) {
    && h.oldStart >= 0 && h.newStart >= 0
    && forall i :: 0 <= i < |h.body| ==>
         (h.body[i].tag == ' ' || h.body[i].tag == '-' || h.body[i].tag == '+') && IsLine(h.body[i].text)
  }

  predicate AllReadable(hunks: seq<DiffHunk>) {
    forall g :: 0 <= g < |hunks| ==> Readable(hunks[g])
  }

  lemma HeaderIsLine(h: DiffHunk)
    requires h.oldStart >= 0 && h.newStart >= 0
    ensures IsLine(HeaderOf(h)) && Terminated(HeaderOf(h)) && HeaderOf(h)[0] == '@'
  {
    var was, now := FormatRange(h.oldStart, h.oldLen), FormatRange(h.newStart, h.newLen);
    RangeHasNoSpace(h.oldStart, h.oldLen);
    RangeHasNoSpace(h.newStart, h.newLen);
    var inner := "@@ -" + was + " +" + now + " @@";
    assert '\n' !in inner;
    assert HeaderOf(h) == inner + "\n";
  }

  lemma BodyLineIsLine(l: HunkLine)
    requires IsLine(l.text) && l.tag != '\n'
    ensures IsLine(RenderLine(l)) && Terminated(RenderLine(l)) && RenderLine(l)[0] == l.tag
  {
  }

  lemma HunkLinesWhole(h: DiffHunk)
    requires Readable(h)
    ensures WholeLines(RenderedHunk(h))
  {
    HeaderIsLine(h);
    forall i | 0 <= i < |h.body|
      ensures IsLine(RenderedBody(h.body)[i]) && Terminated(RenderedBody(h.body)[i])
    {
      BodyLineIsLine(h.body[i]);
    }
  }

  lemma {:induction false} AllLinesWhole(hunks: seq<DiffHunk>)
    requires AllReadable(hunks)
    ensures WholeLines(RenderedLines(hunks))
  {
    if hunks != [] {
      HunkLinesWhole(hunks[0]);
      AllLinesWhole(hunks[1..]);
    }
  }

  // ----- Reading

  /** A line as a diff can show it. */
  function Padded(l: HunkLine): HunkLine {
    if Terminated(l.text) then l else l.(text := l.text + "\n")
  }

  predicate SameBody(p: seq<HunkLine>, q: seq<HunkLine>) {
    |p| == |q| && forall i :: 0 <= i < |p| ==> Padded(p[i]) == Padded(q[i])
  }

  predicate SameHunks(hs: seq<DiffHunk>, gs: seq<DiffHunk>) {
    |hs| == |gs| && forall i :: 0 <= i < |hs| ==> SameRanges(hs[i], gs[i]) && SameBody(hs[i].body, gs[i].body)
  }

  predicate StartsWithHeader(lines: seq<string>) {
    lines == [] || (lines[0] != "" && lines[0][0] == '@')
  }

  predicate IsBody(lines: seq<string>) {
    forall i :: 0 <= i < |lines| ==> lines[i] != "" && lines[i][0] != '@'
  }

  /** A body ends where the next header, or nothing, follows. */
  lemma BodyEndsAtHeader(p: seq<string>, rest: seq<string>, q: seq<string>, rest': seq<string>)
    requires p + rest == q + rest' && IsBody(p) && IsBody(q)
    requires StartsWithHeader(rest) && StartsWithHeader(rest')
    ensures p == q && rest == rest'
  {
    var all := p + rest;
    assert forall i :: 0 <= i < |p| ==> all[i] == p[i] && p[i][0] != '@';
    assert forall i :: 0 <= i < |q| ==> all[i] == q[i] && q[i][0] != '@';
    assert rest != [] ==> all[|p|] == rest[0];
    assert rest' != [] ==> all[|q|] == rest'[0];
    assert |p| == |q|;
    assert p == all[..|p|] && q == all[..|q|];
    assert rest == all[|p|..] && rest' == all[|q|..];
  }

  lemma BodyReadBack(p: seq<HunkLine>, q: seq<HunkLine>)
    requires RenderedBody(p) == RenderedBody(q)
    ensures SameBody(p, q)
  {
    assert |RenderedBody(p)| == |p| && |RenderedBody(q)| == |q|;
    forall i | 0 <= i < |p|
      ensures Padded(p[i]) == Padded(q[i])
    {
      assert RenderedBody(p)[i] == RenderLine(p[i]) && RenderedBody(q)[i] == RenderLine(q[i]);
      LineReadBack(p[i], q[i]);
    }
  }

  lemma LineRendered(l: HunkLine)
    ensures RenderLine(l) == [l.tag] + Padded(l).text
  {
  }

  lemma LineReadBack(l: HunkLine, k: HunkLine)
    requires RenderLine(l) == RenderLine(k)
    ensures Padded(l) == Padded(k)
  {
    LineRendered(l);
    LineRendered(k);
    assert RenderLine(l)[0] == l.tag && RenderLine(k)[0] == k.tag;
    assert RenderLine(l)[1..] == Padded(l).text && RenderLine(k)[1..] == Padded(k).text;
  }

  lemma BodyIsBody(h: DiffHunk)
    requires Readable(h)
    ensures IsBody(RenderedBody(h.body))
  {
  }

  lemma LinesStartWithHeader(hunks: seq<DiffHunk>)
    requires AllReadable(hunks)
    ensures StartsWithHeader(RenderedLines(hunks))
  {
    if hunks != [] {
      HeaderIsLine(hunks[0]);
    }
  }

  lemma {:induction false} LinesReadBack(hs: seq<DiffHunk>, gs: seq<DiffHunk>)
    requires AllReadable(hs) && AllReadable(gs) && RenderedLines(hs) == RenderedLines(gs)
    ensures SameHunks(hs, gs)
  {
    if hs != [] && gs != [] {
      var h, g := hs[0], gs[0];
      var rest, rest' := RenderedLines(hs[1..]), RenderedLines(gs[1..]);
      LinesStartWithHeader(hs[1..]);
      LinesStartWithHeader(gs[1..]);
      FirstHunkReadBack(h, rest, g, rest');
      LinesReadBack(hs[1..], gs[1..]);
      assert forall i :: 0 < i < |hs| ==> hs[i] == hs[1..][i - 1];
      assert forall i :: 0 < i < |gs| ==> gs[i] == gs[1..][i - 1];
    }
  }

  lemma HeadAndTail(header: string, body: seq<string>, rest: seq<string>)
    ensures ([header] + body + rest)[0] == header && ([header] + body + rest)[1..] == body + rest
  {
  }

  lemma FirstHunkReadBack(h: DiffHunk, rest: seq<string>, g: DiffHunk, rest': seq<string>)
    requires Readable(h) && Readable(g) && StartsWithHeader(rest) && StartsWithHeader(rest')
    requires RenderedHunk(h) + rest == RenderedHunk(g) + rest'
    ensures SameRanges(h, g) && SameBody(h.body, g.body) && rest == rest'
  {
    var p, q := RenderedBody(h.body), RenderedBody(g.body);
    HeadAndTail(HeaderOf(h), p, rest);
    HeadAndTail(HeaderOf(g), q, rest');
    HeaderInjective(h, g);
    BodyIsBody(h);
    BodyIsBody(g);
    BodyEndsAtHeader(p, rest, q, rest');
    BodyReadBack(h.body, g.body);
  }

  /** The text of a diff determines its hunks, up to a missing newline in their lines. */
  lemma DiffTextReadBack(hs: seq<DiffHunk>, gs: seq<DiffHunk>)
    requires AllReadable(hs) && AllReadable(gs)
    ensures Render(hs) == Render(gs) <==> SameHunks(hs, gs)
  {
    if Render(hs) == Render(gs) {
      AllLinesWhole(hs);
      AllLinesWhole(gs);
      LinesConcat(hs);
      LinesConcat(gs);
      LinesUnique(RenderedLines(hs), RenderedLines(gs));
      LinesReadBack(hs, gs);
    }
    if SameHunks(hs, gs) {
      SameHunksRender(hs, gs);
    }
  }

  lemma {:induction false} SameHunksRender(hs: seq<DiffHunk>, gs: seq<DiffHunk>)
    requires SameHunks(hs, gs)
    ensures Render(hs) == Render(gs)
  {
    if hs != [] {
      SameBodyRenders(hs[0].body, gs[0].body);
      SameHunksRender(hs[1..], gs[1..]);
    }
  }

  lemma {:induction false} SameBodyRenders(p: seq<HunkLine>, q: seq<HunkLine>)
    requires SameBody(p, q)
    ensures RenderBody(p) == RenderBody(q)
  {
    if p != [] {
      LineRendered(p[0]);
      LineRendered(q[0]);
      assert Padded(p[0]) == Padded(q[0]) && p[0].tag == q[0].tag;
      assert forall i :: 0 <= i < |p| - 1 ==> p[1..][i] == p[i + 1] && q[1..][i] == q[i + 1];
      SameBodyRenders(p[1..], q[1..]);
    }
  }

  // ----- What the text of a diff says of the update

  /** A line as a diff can show it. */
  function PaddedLine(line: Line): Line {
    if Terminated(line) then line else line + "\n"
  }

  predicate SameLines(p: seq<Line>, q: seq<Line>) {
    |p| == |q| && forall i :: 0 <= i < |p| ==> PaddedLine(p[i]) == PaddedLine(q[i])
  }

  lemma SameLinesConcat(p: seq<Line>, q: seq<Line>, r: seq<Line>, s: seq<Line>)
    requires SameLines(p, q) && SameLines(r, s)
    ensures SameLines(p + r, q + s)
  {
    forall i | 0 <= i < |p + r|
      ensures PaddedLine((p + r)[i]) == PaddedLine((q + s)[i])
    {
      if i < |p| {
        assert (p + r)[i] == p[i] && (q + s)[i] == q[i];
      } else {
        assert (p + r)[i] == r[i - |p|] && (q + s)[i] == s[i - |q|];
      }
    }
  }

  function FirstNewLine(l: HunkLine): seq<Line> {
    if l.tag == '-' then [] else [l.text]
  }

  lemma SameFirstNewLine(l: HunkLine, k: HunkLine)
    requires Padded(l) == Padded(k)
    ensures SameLines(FirstNewLine(l), FirstNewLine(k))
  {
    assert l.tag == k.tag && PaddedLine(l.text) == PaddedLine(k.text);
  }

  lemma SameBodyTails(p: seq<HunkLine>, q: seq<HunkLine>)
    requires p != [] && SameBody(p, q)
    ensures Padded(p[0]) == Padded(q[0]) && SameBody(p[1..], q[1..])
  {
    assert forall i :: 0 <= i < |p| - 1 ==> p[1..][i] == p[i + 1] && q[1..][i] == q[i + 1];
  }

  lemma {:induction false} SameBodySameNew(p: seq<HunkLine>, q: seq<HunkLine>)
    requires SameBody(p, q)
    ensures SameLines(NewBody(p), NewBody(q))
  {
    if p != [] {
      SameBodyTails(p, q);
      SameFirstNewLine(p[0], q[0]);
      SameBodySameNew(p[1..], q[1..]);
      SameLinesConcat(FirstNewLine(p[0]), FirstNewLine(q[0]), NewBody(p[1..]), NewBody(q[1..]));
    }
  }

  /** What accepting the first hunk makes of the rest. */
  lemma PatchFirst(lines: seq<Line>, hs: seq<DiffHunk>, pos: nat, written: nat, b: seq<Line>) returns (at: nat, next: nat, rest: seq<Line>)
    requires hs != [] && Patch(lines, hs, pos, written) == Some(b)
    ensures at == Position(hs[0].oldStart, hs[0].oldLen) && next == Position(hs[0].newStart, hs[0].newLen) + hs[0].newLen
    ensures pos <= at <= |lines| && Patch(lines, hs[1..], at + hs[0].oldLen, next) == Some(rest)
    ensures b == lines[pos..at] + NewBody(hs[0].body) + rest
  {
    at, next := Position(hs[0].oldStart, hs[0].oldLen), Position(hs[0].newStart, hs[0].newLen) + hs[0].newLen;
    rest := Patch(lines, hs[1..], at + hs[0].oldLen, next).value;
  }

  lemma SameTails(hs: seq<DiffHunk>, gs: seq<DiffHunk>)
    requires hs != [] && SameHunks(hs, gs)
    ensures SameRanges(hs[0], gs[0]) && SameBody(hs[0].body, gs[0].body) && SameHunks(hs[1..], gs[1..])
  {
    forall i | 0 <= i < |hs| - 1
      ensures SameRanges(hs[1..][i], gs[1..][i]) && SameBody(hs[1..][i].body, gs[1..][i].body)
    {
      assert hs[1..][i] == hs[i + 1] && gs[1..][i] == gs[i + 1];
    }
  }

  /** Hunks that show the same patch the same text into the same lines, up to padding. */
  lemma {:induction false} SameHunksSameLines(lines: seq<Line>, hs: seq<DiffHunk>, b: seq<Line>, gs: seq<DiffHunk>, b': seq<Line>,
                                              pos: nat, written: nat)
    requires SameHunks(hs, gs)
    requires Patch(lines, hs, pos, written) == Some(b) && Patch(lines, gs, pos, written) == Some(b')
    ensures SameLines(b, b')
    decreases |hs|
  {
    if hs == [] {
      assert b == b';
    } else {
      SameTails(hs, gs);
      var at, next, rest := PatchFirst(lines, hs, pos, written, b);
      var at', next', rest' := PatchFirst(lines, gs, pos, written, b');
      SameHunksSameLines(lines, hs[1..], rest, gs[1..], rest', at + hs[0].oldLen, next);
      SameBodySameNew(hs[0].body, gs[0].body);
      SameParts(lines[pos..at], NewBody(hs[0].body), NewBody(gs[0].body), rest, rest');
    }
  }

  lemma SameParts(between: seq<Line>, p: seq<Line>, q: seq<Line>, r: seq<Line>, s: seq<Line>)
    requires SameLines(p, q) && SameLines(r, s)
    ensures SameLines(between + p + r, between + q + s)
  {
    SameLinesConcat(between, between, p, q);
    SameLinesConcat(between + p, between + q, r, s);
  }

  /** The last line lacks its newline. */
  predicate EndsOpen(lines: seq<Line>) {
    lines != [] && !Terminated(lines[|lines| - 1])
  }

  predicate TerminatedButLast(lines: seq<Line>) {
    forall i :: 0 <= i < |lines| - 1 ==> Terminated(lines[i])
  }

  lemma SameLinesUnpadded(b: seq<Line>, b': seq<Line>)
    requires TerminatedButLast(b) && TerminatedButLast(b') && SameLines(b, b')
    ensures b == b' <==> (EndsOpen(b) <==> EndsOpen(b'))
  {
    if EndsOpen(b) <==> EndsOpen(b') {
      forall i | 0 <= i < |b|
        ensures b[i] == b'[i]
      {
        PaddedInjective(b[i], b'[i]);
      }
    }
  }

  lemma PaddedInjective(l: Line, k: Line)
    requires PaddedLine(l) == PaddedLine(k) && (Terminated(l) <==> Terminated(k))
    ensures l == k
  {
    assert !Terminated(l) ==> PaddedLine(l)[..|l|] == l;
    assert !Terminated(k) ==> PaddedLine(k)[..|k|] == k;
  }

  /**
   Two updates of one text that show the same diff, with whatever context, are
   the same if and only if they agree on whether their last line lacks its newline.
   */
  lemma SameDiffSameUpdate(a: seq<Line>, b: seq<Line>, hs: seq<DiffHunk>, b': seq<Line>, gs: seq<DiffHunk>)
    requires AreLines(a) && AreLines(b) && AreLines(b')
    requires forall i :: 0 <= i < |hs| ==> Quotes(hs[i], a, b)
    requires forall i :: 0 <= i < |gs| ==> Quotes(gs[i], a, b')
    requires Patch(a, hs, 0, 0) == Some(b) && Patch(a, gs, 0, 0) == Some(b')
    requires Render(hs) == Render(gs)
    ensures b == b' <==> (EndsOpen(b) <==> EndsOpen(b'))
  {
    QuotesReadable(hs, a, b);
    QuotesReadable(gs, a, b');
    DiffTextReadBack(hs, gs);
    SameHunksSameLines(a, hs, b, gs, b', 0, 0);
    SameLinesUnpadded(b, b');
  }

  /** Updates that come from chunks end in a newline or are empty, so between them the diff determines the update. */
  lemma SameDiffSameDerived(original: string, a: seq<Line>, u: string, b: seq<Line>, hs: seq<DiffHunk>, u': string, b': seq<Line>, gs: seq<DiffHunk>,
                            chunks: seq<UpdateFileChunk>, chunks': seq<UpdateFileChunk>)
    requires AreLines(a) && Concat(a) == original
    requires DerivedContents(original, chunks) == Ok(u) && AreLines(b) && Concat(b) == u
    requires DerivedContents(original, chunks') == Ok(u') && AreLines(b') && Concat(b') == u'
    requires forall i :: 0 <= i < |hs| ==> Quotes(hs[i], a, b)
    requires forall i :: 0 <= i < |gs| ==> Quotes(gs[i], a, b')
    requires Patch(a, hs, 0, 0) == Some(b) && Patch(a, gs, 0, 0) == Some(b')
    ensures Render(hs) == Render(gs) ==> u == u'
  {
    DerivedClosed(original, chunks, b);
    DerivedClosed(original, chunks', b');
    if Render(hs) == Render(gs) {
      SameDiffSameUpdate(a, b, hs, b', gs);
    }
  }

  lemma DerivedClosed(original: string, chunks: seq<UpdateFileChunk>, b: seq<Line>)
    requires AreLines(b) && DerivedContents(original, chunks) == Ok(Concat(b))
    ensures !EndsOpen(b)
  {
    DerivedEnds(original, chunks);
    ClosedText(b);
  }

  lemma {:induction false} ClosedText(lines: seq<Line>)
    requires AreLines(lines)
    ensures Concat(lines) == "" <==> lines == []
    ensures lines != [] ==> (EndsOpen(lines) <==> Concat(lines)[|Concat(lines)| - 1] != '\n')
  {
    if lines != [] {
      var n := |lines| - 1;
      ConcatAppend(lines[..n], lines[n]);
      assert lines == lines[..n] + [lines[n]];
    }
  }

  lemma QuotesReadable(hs: seq<DiffHunk>, a: seq<Line>, b: seq<Line>)
    requires AreLines(a) && AreLines(b) && forall i :: 0 <= i < |hs| ==> Quotes(hs[i], a, b)
    ensures AllReadable(hs)
  {
    forall i | 0 <= i < |hs|
      ensures Readable(hs[i])
    {
      assert Quotes(hs[i], a, b);
    }
  }

  /** The hunk that adds one line to an empty text. */
  function Adding(line: Line): DiffHunk {
    DiffHunk(0, 0, 1, 1, [HunkLine('+', line)])
  }

  lemma AddingAdds(line: Line)
    ensures Patch([], [Adding(line)], 0, 0) == Some([line])
  {
    var h, none: seq<Line> := Adding(line), [];
    assert h.body[1..] == [];
    assert OldBody(h.body) == none[0..0] && NewBody(h.body) == [line];
    assert Fits(none, h, 0, 0);
    var hunks, rest: seq<DiffHunk> := [h], [];
    assert hunks[1..] == rest;
    var next := Patch(none, rest, 0, 1);
    assert next == Some(none[0..]);
    assert Position(h.oldStart, h.oldLen) == 0 && Position(h.newStart, h.newLen) == 0;
    assert none[0..0] + NewBody(h.body) + none[0..] == [line];
    assert Patch(none, hunks, 0, 0) == Some(none[0..0] + NewBody(h.body) + none[0..]);
  }

  /** Updates that do not agree on the final newline can show the same diff. */
  lemma MissingNewlineHidden(line: Line)
    requires line != "" && !Terminated(line)
    ensures Patch([], [Adding(line)], 0, 0) == Some([line])
    ensures Patch([], [Adding(line + "\n")], 0, 0) == Some([line + "\n"])
    ensures Render([Adding(line)]) == Render([Adding(line + "\n")])
  {
    AddingAdds(line);
    AddingAdds(line + "\n");
    SameHunksRender([Adding(line)], [Adding(line + "\n")]);
  }
}
