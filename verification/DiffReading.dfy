/**
 Reading a unified diff by its format: headers with decimal ranges, and lines
 tagged by a space, a minus or a plus. The text that is written for an update
 (internal/applypatch/diff.go) reads as hunks that patch the old lines into the
 new ones, up to the newline that a last line may lack.
 */
module DiffReading {

  import opened EditScript
  import opened Hunks
  import opened PatchTypes
  import opened Text
  import opened UnifiedDiff
  import opened DiffText

  // ----- The format

  /** Decimal digits, and the number that they write. */
  predicate Numeral(s: string) {
    s != "" && forall i :: 0 <= i < |s| ==> '0' <= s[i] <= '9'
  }

  function Value(s: string): int {
    if s == "" then 0 else 10 * Value(s[..|s| - 1]) + (s[|s| - 1] as int - '0' as int)
  }

  predicate Writes(s: string, n: int) {
    Numeral(s) && Value(s) == n
  }

  /** A start and a length; a length of one is left out. */
  ghost predicate RangeReads(s: string, start: int, length: int) {
    || (Writes(s, start) && length == 1)
    || exists p, q :: s == p + "," + q && Writes(p, start) && Writes(q, length) && length != 1
  }

  /** A header line, with the old range before the new one. */
  ghost predicate HeaderReads(line: string, h: DiffHunk) {
    exists was, now :: line == "@@ -" + was + " +" + now + " @@\n" && Ranges(was, now, h)
  }

  ghost predicate Ranges(was: string, now: string, h: DiffHunk) {
    RangeReads(was, h.oldStart, h.oldLen) && RangeReads(now, h.newStart, h.newLen)
  }

  /** Each line is a tag and a text, which ends the line. */
  predicate BodyReads(lines: seq<string>, body: seq<HunkLine>) {
    |lines| == |body| && forall i :: 0 <= i < |body| ==> LineReads(lines[i], body[i])
  }

  predicate LineReads(line: string, l: HunkLine) {
    && (l.tag == ' ' || l.tag == '-' || l.tag == '+')
    && line == [l.tag] + l.text && Terminated(l.text)
  }

  /** The lines are the hunks, one after another. */
  ghost predicate DiffReads(lines: seq<string>, hunks: seq<DiffHunk>)
    decreases |hunks|
  {
    if hunks == [] then lines == []
    else
      var h := hunks[0];
      && |lines| > |h.body| && HeaderReads(lines[0], h) && BodyReads(lines[1..1 + |h.body|], h.body)
      && DiffReads(lines[1 + |h.body|..], hunks[1..])
  }

  // ----- Numerals

  /** A number is written without leading zeros. */
  lemma {:induction false} DecimalWrites(n: nat)
    ensures Writes(Decimal(n), n) && (Decimal(n)[0] == '0' ==> Decimal(n) == "0")
  {
    DecimalDigits(n);
    if n >= 10 {
      DecimalWrites(n / 10);
      assert Decimal(n)[..|Decimal(n)| - 1] == Decimal(n / 10);
      DigitWrites(n % 10);
    } else {
      DigitWrites(n);
      assert Decimal(n)[..0] == "";
    }
  }

  lemma DigitWrites(n: nat)
    requires n < 10
    ensures Digit(n) as int == '0' as int + n
  {
  }

  lemma RangeWritten(start: nat, length: nat)
    ensures RangeReads(FormatRange(start, length), start, length)
  {
    DecimalWrites(start);
    DecimalWrites(length);
    if length != 1 {
      assert FormatRange(start, length) == Decimal(start) + "," + Decimal(length);
    }
  }

  lemma HeaderWritten(h: DiffHunk)
    requires h.oldStart >= 0 && h.newStart >= 0
    ensures HeaderReads(HeaderOf(h), h)
  {
    var was, now := FormatRange(h.oldStart, h.oldLen), FormatRange(h.newStart, h.newLen);
    RangeWritten(h.oldStart, h.oldLen);
    RangeWritten(h.newStart, h.newLen);
    assert Ranges(was, now, h);
    assert HeaderOf(h) == "@@ -" + was + " +" + now + " @@\n";
  }

  // ----- The written diff reads as its hunks

  /** A hunk as its text shows it. */
  function PaddedHunk(h: DiffHunk): DiffHunk {
    h.(body := PaddedBody(h.body))
  }

  function PaddedBody(body: seq<HunkLine>): (r: seq<HunkLine>)
    ensures |r| == |body|
    ensures forall i :: 0 <= i < |body| ==> r[i] == Padded(body[i])
  {
    seq(|body|, i requires 0 <= i < |body| => Padded(body[i]))
  }

  function PaddedHunks(hunks: seq<DiffHunk>): (r: seq<DiffHunk>)
    ensures |r| == |hunks|
    ensures forall i :: 0 <= i < |hunks| ==> r[i] == PaddedHunk(hunks[i])
  {
    seq(|hunks|, i requires 0 <= i < |hunks| => PaddedHunk(hunks[i]))
  }

  lemma BodyWritten(body: seq<HunkLine>)
    requires forall i :: 0 <= i < |body| ==> body[i].tag == ' ' || body[i].tag == '-' || body[i].tag == '+'
    ensures BodyReads(RenderedBody(body), PaddedBody(body))
  {
    forall i | 0 <= i < |body|
      ensures LineReads(RenderedBody(body)[i], PaddedBody(body)[i])
    {
      LineRendered(body[i]);
    }
  }

  lemma {:induction false} DiffWritten(hunks: seq<DiffHunk>)
    requires AllReadable(hunks)
    ensures DiffReads(RenderedLines(hunks), PaddedHunks(hunks))
    decreases |hunks|
  {
    if hunks != [] {
      var h := hunks[0];
      var lines := RenderedLines(hunks);
      HeaderWritten(h);
      BodyWritten(h.body);
      DiffWritten(hunks[1..]);
      HeadAndTail(HeaderOf(h), RenderedBody(h.body), RenderedLines(hunks[1..]));
      assert lines[1..1 + |h.body|] == RenderedBody(h.body);
      assert lines[1 + |h.body|..] == RenderedLines(hunks[1..]);
      assert PaddedHunks(hunks)[1..] == PaddedHunks(hunks[1..]);
      SameHeader(HeaderOf(h), h);
    }
  }

  lemma SameHeader(line: string, h: DiffHunk)
    requires HeaderReads(line, h)
    ensures HeaderReads(line, PaddedHunk(h))
  {
    var was, now :| line == "@@ -" + was + " +" + now + " @@\n" && Ranges(was, now, h);
    assert Ranges(was, now, PaddedHunk(h));
  }

  // ----- A diff reads in only one way

  lemma NumeralHasNoComma(s: string, n: int)
    requires Writes(s, n)
    ensures ',' !in s && RangeText(s)
  {
  }

  /** Digits and commas. */
  predicate RangeText(s: string) {
    forall i :: 0 <= i < |s| ==> '0' <= s[i] <= '9' || s[i] == ','
  }

  /** A comma tells a length that is written. */
  lemma RangeComma(s: string, start: int, length: int)
    requires RangeReads(s, start, length)
    ensures RangeText(s) && (',' in s <==> length != 1)
  {
    if length == 1 {
      NumeralHasNoComma(s, start);
    } else {
      var p, q :| s == p + "," + q && Writes(p, start) && Writes(q, length);
      NumeralHasNoComma(p, start);
      NumeralHasNoComma(q, length);
      assert s[|p|] == ',';
    }
  }

  lemma RangeUnique(s: string, start: int, length: int, start': int, length': int)
    requires RangeReads(s, start, length) && RangeReads(s, start', length')
    ensures start == start' && length == length'
  {
    RangeComma(s, start, length);
    RangeComma(s, start', length');
    if length != 1 {
      var p, q :| s == p + "," + q && Writes(p, start) && Writes(q, length);
      var p', q' :| s == p' + "," + q' && Writes(p', start') && Writes(q', length');
      NumeralHasNoComma(p, start);
      NumeralHasNoComma(p', start');
      CutUnique(',', p, q, p', q');
    }
  }

  lemma HeaderCut(was: string, now: string, was': string, now': string)
    requires RangeText(was) && RangeText(now) && RangeText(was') && RangeText(now')
    requires "@@ -" + was + " +" + now + " @@\n" == "@@ -" + was' + " +" + now' + " @@\n"
    ensures was == was' && now == now'
  {
    HeaderParts(was, now);
    HeaderParts(was', now');
    CutUnique(' ', was, "+" + now + " @@\n", was', "+" + now' + " @@\n");
    RestCut(now, now');
  }

  lemma RestCut(now: string, now': string)
    requires RangeText(now) && RangeText(now') && "+" + now + " @@\n" == "+" + now' + " @@\n"
    ensures now == now'
  {
    assert ("+" + now + " @@\n")[1..] == now + [' '] + "@@\n";
    assert ("+" + now' + " @@\n")[1..] == now' + [' '] + "@@\n";
    CutUnique(' ', now, "@@\n", now', "@@\n");
  }

  lemma HeaderUnique(line: string, h: DiffHunk, g: DiffHunk)
    requires HeaderReads(line, h) && HeaderReads(line, g)
    ensures SameRanges(h, g)
  {
    var was, now :| line == "@@ -" + was + " +" + now + " @@\n" && Ranges(was, now, h);
    var was', now' :| line == "@@ -" + was' + " +" + now' + " @@\n" && Ranges(was', now', g);
    RangeComma(was, h.oldStart, h.oldLen);
    RangeComma(now, h.newStart, h.newLen);
    RangeComma(was', g.oldStart, g.oldLen);
    RangeComma(now', g.newStart, g.newLen);
    HeaderCut(was, now, was', now');
    RangeUnique(was, h.oldStart, h.oldLen, g.oldStart, g.oldLen);
    RangeUnique(now, h.newStart, h.newLen, g.newStart, g.newLen);
  }

  lemma HeaderIsNoLine(line: string, h: DiffHunk, l: HunkLine)
    requires HeaderReads(line, h)
    ensures !LineReads(line, l)
  {
    assert line[0] == '@';
  }

  lemma BodyUnique(lines: seq<string>, p: seq<HunkLine>, q: seq<HunkLine>)
    requires BodyReads(lines, p) && BodyReads(lines, q)
    ensures p == q
  {
    forall i | 0 <= i < |p|
      ensures p[i] == q[i]
    {
      assert LineReads(lines[i], p[i]) && LineReads(lines[i], q[i]);
      assert lines[i][0] == p[i].tag == q[i].tag;
      assert lines[i][1..] == p[i].text == q[i].text;
    }
  }

  /** After the body of the first hunk comes a header, so a body cannot go on. */
  lemma BodyStops(lines: seq<string>, hs: seq<DiffHunk>, gs: seq<DiffHunk>)
    requires hs != [] && gs != [] && DiffReads(lines, hs) && DiffReads(lines, gs)
    ensures |hs[0].body| >= |gs[0].body|
  {
    var m, n := |hs[0].body|, |gs[0].body|;
    if m < n {
      assert lines[1..1 + n][m] == lines[1 + m] && LineReads(lines[1..1 + n][m], gs[0].body[m]);
      assert hs[1..] != [];
      assert lines[1 + m..][0] == lines[1 + m];
      HeaderIsNoLine(lines[1 + m], hs[1], gs[0].body[m]);
    }
  }

  /** A diff reads in only one way. */
  lemma {:induction false} DiffUnique(lines: seq<string>, hs: seq<DiffHunk>, gs: seq<DiffHunk>)
    requires DiffReads(lines, hs) && DiffReads(lines, gs)
    ensures hs == gs
    decreases |hs|
  {
    if hs != [] && gs != [] {
      BodyStops(lines, hs, gs);
      BodyStops(lines, gs, hs);
      HeaderUnique(lines[0], hs[0], gs[0]);
      BodyUnique(lines[1..1 + |hs[0].body|], hs[0].body, gs[0].body);
      DiffUnique(lines[1 + |hs[0].body|..], hs[1..], gs[1..]);
      assert hs == [hs[0]] + hs[1..] && gs == [gs[0]] + gs[1..];
    }
  }

  // ----- What the reading does to the old lines

  function PaddedLines(lines: seq<Line>): (r: seq<Line>)
    ensures |r| == |lines|
    ensures forall i :: 0 <= i < |lines| ==> r[i] == PaddedLine(lines[i])
  {
    seq(|lines|, i requires 0 <= i < |lines| => PaddedLine(lines[i]))
  }

  lemma PaddedConcat(p: seq<Line>, q: seq<Line>)
    ensures PaddedLines(p + q) == PaddedLines(p) + PaddedLines(q)
  {
  }

  lemma PaddedSlice(lines: seq<Line>, lo: nat, hi: nat)
    requires lo <= hi <= |lines|
    ensures PaddedLines(lines[lo..hi]) == PaddedLines(lines)[lo..hi]
  {
  }

  lemma {:induction false} PaddedOldSide(body: seq<HunkLine>)
    ensures OldBody(PaddedBody(body)) == PaddedLines(OldBody(body))
  {
    if body != [] {
      PaddedOldSide(body[1..]);
      assert PaddedBody(body)[1..] == PaddedBody(body[1..]);
      PaddedConcat(if body[0].tag == '+' then [] else [body[0].text], OldBody(body[1..]));
    }
  }

  lemma {:induction false} PaddedNewSide(body: seq<HunkLine>)
    ensures NewBody(PaddedBody(body)) == PaddedLines(NewBody(body))
  {
    if body != [] {
      PaddedNewSide(body[1..]);
      assert PaddedBody(body)[1..] == PaddedBody(body[1..]);
      PaddedConcat(if body[0].tag == '-' then [] else [body[0].text], NewBody(body[1..]));
    }
  }

  lemma PaddedFits(lines: seq<Line>, h: DiffHunk, pos: nat, written: nat)
    requires Fits(lines, h, pos, written)
    ensures Fits(PaddedLines(lines), PaddedHunk(h), pos, written)
  {
    var at := Position(h.oldStart, h.oldLen);
    PaddedOldSide(h.body);
    PaddedNewSide(h.body);
    PaddedSlice(lines, at, at + h.oldLen);
  }

  /** What patches the lines patches the lines as they are shown. */
  lemma {:induction false} PaddedPatch(lines: seq<Line>, hunks: seq<DiffHunk>, pos: nat, written: nat, b: seq<Line>)
    requires Patch(lines, hunks, pos, written) == Some(b)
    ensures Patch(PaddedLines(lines), PaddedHunks(hunks), pos, written) == Some(PaddedLines(b))
    decreases |hunks|
  {
    if hunks == [] {
      PaddedSlice(lines, pos, |lines|);
      assert b == lines[pos..|lines|] && PaddedHunks(hunks) == [];
      assert PaddedLines(lines)[pos..|lines|] == PaddedLines(lines)[pos..];
    } else {
      var h := hunks[0];
      var at, next, rest := PatchFirst(lines, hunks, pos, written, b);
      PaddedFits(lines, h, pos, written);
      PaddedPatch(lines, hunks[1..], at + h.oldLen, next, rest);
      assert PaddedHunks(hunks)[1..] == PaddedHunks(hunks[1..]);
      PaddedNewSide(h.body);
      PaddedSlice(lines, pos, at);
      PaddedConcat(lines[pos..at], NewBody(h.body));
      PaddedConcat(lines[pos..at] + NewBody(h.body), rest);
    }
  }

  /** Whoever reads the lines of the diff of an update finds hunks that patch the old lines into the new ones, as they are shown. */
  lemma DiffPatches(a: seq<Line>, b: seq<Line>, hunks: seq<DiffHunk>, lines: seq<string>, read: seq<DiffHunk>)
    requires AreLines(a) && AreLines(b) && forall i :: 0 <= i < |hunks| ==> Quotes(hunks[i], a, b)
    requires Patch(a, hunks, 0, 0) == Some(b)
    requires AreLines(lines) && Concat(lines) == Render(hunks)
    ensures DiffReads(lines, read) ==> Patch(PaddedLines(a), read, 0, 0) == Some(PaddedLines(b))
    ensures DiffReads(lines, PaddedHunks(hunks))
  {
    QuotesReadable(hunks, a, b);
    AllLinesWhole(hunks);
    LinesConcat(hunks);
    LinesUnique(lines, RenderedLines(hunks));
    DiffWritten(hunks);
    PaddedPatch(a, hunks, 0, 0, b);
    if DiffReads(lines, read) {
      DiffUnique(lines, read, PaddedHunks(hunks));
    }
  }
}
