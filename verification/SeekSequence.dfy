/**
 Locating a block of pattern lines in a file (internal/applypatch/seek_sequence.go):
 four passes of decreasing strictness over the same range of positions.
 */
module SeekSequence {

  import opened PatchTypes
  import opened Whitespace
  import opened Likeness

  /** Typographic punctuation and odd spaces, mapped to ASCII. */
  function Ascii(c: char): char {
    if '\U{2010}' <= c <= '\U{2015}' || c == '\U{2212}' then '-'
    else if '\U{2018}' <= c <= '\U{201B}' then '\''
    else if '\U{201C}' <= c <= '\U{201F}' then '"'
    else if c == '\U{00A0}' || '\U{2002}' <= c <= '\U{200A}' || c in {'\U{202F}', '\U{205F}', '\U{3000}'} then ' '
    else c
  }

  function MapAscii(s: string): string {
    if s == "" then "" else MapAscii(s[..|s| - 1]) + [Ascii(s[|s| - 1])]
  }

  /** Trims a line and maps its punctuation, rune by rune. */
  method NormalisePunctuation(s: string) returns (r: string)
    ensures r == Normalise(s)
  {
    var trimmed := TrimSpace(s);
    r := "";
    for i := 0 to |trimmed|
      invariant r == MapAscii(trimmed[..i])
    {
      assert trimmed[..i + 1][..i] == trimmed[..i];
      r := r + [Ascii(trimmed[i])];
    }
    assert trimmed[..|trimmed|] == trimmed;
  }

  function Normalise(s: string): string {
    MapAscii(TrimSpace(s))
  }

  // ----- The four levels

  /** What is left of a line to compare. */
  function Transform(level: Level): string -> string {
    match level
    case Exact => s => s
    case IgnoreTrailing => TrimEnd
    case IgnoreSurrounding => TrimSpace
    case IgnorePunctuation => Normalise
  }

  function Laxer(level: Level): Level {
    match level
    case Exact => IgnoreTrailing
    case IgnoreTrailing => IgnoreSurrounding
    case IgnoreSurrounding => IgnorePunctuation
    case IgnorePunctuation => IgnorePunctuation
  }

  /** Lines that are equal at one level are equal at the next. */
  lemma LaxerAgrees(level: Level, s: string, t: string)
    requires Transform(level)(s) == Transform(level)(t)
    ensures Transform(Laxer(level))(s) == Transform(Laxer(level))(t)
  {
    TrimSpaceInTwoSteps(s);
    TrimSpaceInTwoSteps(t);
  }

  // ----- What it means that the transforms of two lines are equal

  lemma SpaceIsWhite(s: string)
    ensures AllSpace(s) <==> White(s)
  {
    assert forall c: char :: IsSpace(c) <==> c in WHITE_SPACE;
  }

  /** A line, as whitespace around what trimming leaves. */
  lemma Trimmed(s: string) returns (left: string, right: string)
    ensures Around(s, left, TrimSpace(s), right)
    ensures TrimSpace(s) != "" ==> !IsSpace(TrimSpace(s)[0]) && !IsSpace(TrimSpace(s)[|TrimSpace(s)| - 1])
  {
    var n := EndOf(s, |s|);
    var i := StartOf(s, 0, n);
    EndOfIsTight(s, |s|);
    StartOfIsTight(s, 0, n);
    left, right := s[..i], s[n..];
    SpaceIsWhite(left);
    SpaceIsWhite(right);
    assert s == s[..i] + s[i..n] + s[n..];
  }

  lemma WhiteConcat(s: string, t: string)
    requires White(s) && White(t)
    ensures White(s + t)
  {
  }

  /** Trimming removes whatever whitespace there is around a text. */
  lemma TrimAround(s: string, left: string, core: string, right: string)
    requires Around(s, left, core, right)
    ensures TrimSpace(s) == TrimSpace(core)
  {
    var m := TrimSpace(core);
    var u, v := Trimmed(core);
    WhiteConcat(left, u);
    WhiteConcat(v, right);
    assert s == (left + u) + m + (v + right);
    SpaceIsWhite(left + u);
    SpaceIsWhite(v + right);
    if m == "" {
      WhiteConcat(left + u, v + right);
      assert s == (left + u) + (v + right);
      SpaceIsWhite(s);
      TrimSpaceEmpty(s);
    } else {
      TrimSurrounded(left + u, m, v + right);
    }
  }

  lemma TrimmedEnd(s: string) returns (right: string)
    ensures Around(s, "", TrimEnd(s), right)
  {
    var n := EndOf(s, |s|);
    EndOfIsTight(s, |s|);
    right := s[n..];
    SpaceIsWhite(right);
    assert s == "" + s[..n] + s[n..];
  }

  lemma {:induction false} EndOfExtended(core: string, right: string, n: nat)
    requires n <= |right| && AllSpace(right)
    ensures EndOf(core + right, |core| + n) == EndOf(core, |core|)
    decreases n
  {
    if n > 0 {
      assert (core + right)[|core| + n - 1] == right[n - 1];
      EndOfExtended(core, right, n - 1);
    } else {
      EndOfPrefix(core, right, |core|);
    }
  }

  lemma {:induction false} EndOfPrefix(core: string, right: string, n: nat)
    requires n <= |core|
    ensures EndOf(core + right, n) == EndOf(core, n)
    decreases n
  {
    if n > 0 {
      assert (core + right)[n - 1] == core[n - 1];
      EndOfPrefix(core, right, n - 1);
    }
  }

  lemma TrimEndAround(s: string, core: string, right: string)
    requires Around(s, "", core, right)
    ensures TrimEnd(s) == TrimEnd(core)
  {
    SpaceIsWhite(right);
    assert s == core + right;
    EndOfExtended(core, right, |right|);
    var n := EndOf(core, |core|);
    assert s[..n] == core[..n];
  }

  lemma {:induction false} MapAsciiAt(s: string, i: nat)
    requires i <= |s|
    ensures |MapAscii(s)| == |s| && (i < |s| ==> MapAscii(s)[i] == Ascii(s[i]))
  {
    if s != "" {
      MapAsciiAt(s[..|s| - 1], if i < |s| - 1 then i else 0);
    }
  }

  /** The characters that are mapped to each of the four, and what happens to the others. */
  lemma AsciiClasses(c: char)
    ensures Ascii(c) == '-' <==> c in DASHES
    ensures Ascii(c) == '\'' <==> c in SINGLE_QUOTES
    ensures Ascii(c) == '"' <==> c in DOUBLE_QUOTES
    ensures Ascii(c) == ' ' <==> c in SPACES
    ensures c !in DASHES && c !in SINGLE_QUOTES && c !in DOUBLE_QUOTES && c !in SPACES ==> Ascii(c) == c
  {
  }

  lemma AsciiMeans(c: char, d: char)
    ensures Ascii(c) == Ascii(d) <==> SameRune(c, d)
  {
    AsciiClasses(c);
    AsciiClasses(d);
  }

  lemma AsciiKeepsSpace(c: char)
    ensures IsSpace(c) <==> IsSpace(Ascii(c))
  {
  }

  lemma MapAsciiMeans(s: string, t: string)
    ensures MapAscii(s) == MapAscii(t) <==> SameRunes(s, t)
  {
    MapAsciiAt(s, |s|);
    MapAsciiAt(t, |t|);
    if |s| == |t| {
      forall i | 0 <= i < |s|
        ensures MapAscii(s)[i] == MapAscii(t)[i] <==> SameRune(s[i], t[i])
      {
        MapAsciiAt(s, i);
        MapAsciiAt(t, i);
        AsciiMeans(s[i], t[i]);
      }
    }
  }

  /** Runes of the same kind are trimmed in the same places. */
  lemma SameRunesTrim(c: string, d: string)
    requires SameRunes(c, d)
    ensures SameRunes(TrimSpace(c), TrimSpace(d))
  {
    forall i | 0 <= i < |c|
      ensures IsSpace(c[i]) <==> IsSpace(d[i])
    {
      AsciiMeans(c[i], d[i]);
      AsciiKeepsSpace(c[i]);
      AsciiKeepsSpace(d[i]);
    }
    SameEnd(c, d, |c|);
    SameStart(c, d, 0, EndOf(c, |c|));
  }

  lemma {:induction false} SameEnd(c: string, d: string, n: nat)
    requires |c| == |d| && n <= |c| && forall i :: 0 <= i < |c| ==> (IsSpace(c[i]) <==> IsSpace(d[i]))
    ensures EndOf(c, n) == EndOf(d, n)
    decreases n
  {
    if n > 0 && IsSpace(c[n - 1]) {
      SameEnd(c, d, n - 1);
    }
  }

  lemma {:induction false} SameStart(c: string, d: string, i: nat, n: nat)
    requires |c| == |d| && i <= n <= |c| && forall i :: 0 <= i < |c| ==> (IsSpace(c[i]) <==> IsSpace(d[i]))
    ensures StartOf(c, i, n) == StartOf(d, i, n)
    decreases n - i
  {
    if i < n && IsSpace(c[i]) {
      SameStart(c, d, i + 1, n);
    }
  }

  lemma EndMeans(s: string, t: string)
    ensures TrimEnd(s) == TrimEnd(t) <==> Alike(IgnoreTrailing, s, t)
  {
    if TrimEnd(s) == TrimEnd(t) {
      var v := TrimmedEnd(s);
      var w := TrimmedEnd(t);
    }
    if Alike(IgnoreTrailing, s, t) {
      var core, v, w :| Around(s, "", core, v) && Around(t, "", core, w);
      TrimEndAround(s, core, v);
      TrimEndAround(t, core, w);
    }
  }

  lemma SpaceMeans(s: string, t: string)
    ensures TrimSpace(s) == TrimSpace(t) <==> Alike(IgnoreSurrounding, s, t)
  {
    if TrimSpace(s) == TrimSpace(t) {
      var u, v := Trimmed(s);
      var w, x := Trimmed(t);
    }
    if Alike(IgnoreSurrounding, s, t) {
      var core, u, v, w, x :| Around(s, u, core, v) && Around(t, w, core, x);
      TrimAround(s, u, core, v);
      TrimAround(t, w, core, x);
    }
  }

  lemma PunctuationMeans(s: string, t: string)
    ensures Normalise(s) == Normalise(t) <==> Alike(IgnorePunctuation, s, t)
  {
    MapAsciiMeans(TrimSpace(s), TrimSpace(t));
    if Normalise(s) == Normalise(t) {
      var u, v := Trimmed(s);
      var w, x := Trimmed(t);
    }
    if Alike(IgnorePunctuation, s, t) {
      var c, d, u, v, w, x :| Around(s, u, c, v) && Around(t, w, d, x) && SameRunes(c, d);
      TrimAround(s, u, c, v);
      TrimAround(t, w, d, x);
      SameRunesTrim(c, d);
    }
  }

  /** The transforms of two lines are equal exactly if the lines are alike. */
  lemma TransformMeans(level: Level, s: string, t: string)
    ensures Transform(level)(s) == Transform(level)(t) <==> Alike(level, s, t)
  {
    match level
    case Exact =>
    case IgnoreTrailing => EndMeans(s, t);
    case IgnoreSurrounding => SpaceMeans(s, t);
    case IgnorePunctuation => PunctuationMeans(s, t);
  }

  // ----- One pass

  /** Under the transformation, the pattern matches the lines at position `i`. */
  predicate MatchesAt(f: string -> string, lines: Lines, pattern: Lines, i: int) {
    && 0 <= i && i + |pattern| <= |lines|
    && forall p :: 0 <= p < |pattern| ==> f(lines[i + p]) == f(pattern[p])
  }

  /** `i` is the first position from `start` on where the pattern matches. */
  ghost predicate Leftmost(f: string -> string, lines: Lines, pattern: Lines, start: nat, i: int) {
    && start <= i
    && MatchesAt(f, lines, pattern, i)
    && forall j :: start <= j < i ==> !MatchesAt(f, lines, pattern, j)
  }

  ghost predicate NoMatch(f: string -> string, lines: Lines, pattern: Lines, start: nat) {
    forall j :: start <= j ==> !MatchesAt(f, lines, pattern, j)
  }

  /** The first match at or after `searchStart`. */
  function FirstMatch(f: string -> string, lines: Lines, pattern: Lines, searchStart: nat): Option<nat>
    decreases |lines| - searchStart
  {
    if searchStart + |pattern| > |lines| then None
    else if MatchesAt(f, lines, pattern, searchStart) then Some(searchStart)
    else if searchStart == |lines| then None
    else FirstMatch(f, lines, pattern, searchStart + 1)
  }

  /** A pass returns the leftmost match, and fails only when there is none. */
  lemma {:induction false} FirstMatchIsLeftmost(f: string -> string, lines: Lines, pattern: Lines, searchStart: nat)
    ensures var r := FirstMatch(f, lines, pattern, searchStart);
            && (r.Some? ==> Leftmost(f, lines, pattern, searchStart, r.value))
            && (r.None? ==> NoMatch(f, lines, pattern, searchStart))
    decreases |lines| - searchStart
  {
    if searchStart < |lines| {
      FirstMatchIsLeftmost(f, lines, pattern, searchStart + 1);
    }
  }

  // ----- The four passes

  /** The first position at which a pass of the search may match. */
  function SearchStart(lines: Lines, pattern: Lines, start: nat, eof: bool): nat {
    if eof && |lines| >= |pattern| then |lines| - |pattern| else start
  }

  /** The passes from `level` on, in order of decreasing strictness. */
  function Passes(level: Level, lines: Lines, pattern: Lines, searchStart: nat): Option<nat>
    decreases 3 - Rank(level)
  {
    var r := FirstMatch(Transform(level), lines, pattern, searchStart);
    if r.Some? || level == IgnorePunctuation then r else Passes(Laxer(level), lines, pattern, searchStart)
  }

  function Seek(lines: Lines, pattern: Lines, start: nat, eof: bool): Option<nat> {
    if |pattern| == 0 then Some(start)
    else if |pattern| > |lines| then None
    else Passes(Exact, lines, pattern, SearchStart(lines, pattern, start, eof))
  }

  /** A match at one level is a match at the laxest. */
  lemma {:induction false} LaxestMatch(level: Level, lines: Lines, pattern: Lines, i: int)
    requires MatchesAt(Transform(level), lines, pattern, i)
    ensures MatchesAt(Normalise, lines, pattern, i)
    decreases 3 - Rank(level)
  {
    if level != IgnorePunctuation {
      forall p | 0 <= p < |pattern|
        ensures Transform(Laxer(level))(lines[i + p]) == Transform(Laxer(level))(pattern[p])
      {
        LaxerAgrees(level, lines[i + p], pattern[p]);
      }
      LaxestMatch(Laxer(level), lines, pattern, i);
    }
  }

  ghost predicate NoneStricter(level: Level, lines: Lines, pattern: Lines, start: nat) {
    forall stricter :: Rank(stricter) < Rank(level) ==> NoMatch(Transform(stricter), lines, pattern, start)
  }

  lemma {:induction false} PassesFindStrictest(level: Level, lines: Lines, pattern: Lines, start: nat) returns (found: Level)
    requires NoneStricter(level, lines, pattern, start)
    ensures var r := Passes(level, lines, pattern, start);
            && (r.None? <==> NoMatch(Normalise, lines, pattern, start))
            && (r.Some? ==> && Leftmost(Transform(found), lines, pattern, start, r.value)
                            && NoneStricter(found, lines, pattern, start))
    decreases 3 - Rank(level)
  {
    found := level;
    var r := FirstMatch(Transform(level), lines, pattern, start);
    FirstMatchIsLeftmost(Transform(level), lines, pattern, start);
    if r.Some? {
      LaxestMatch(level, lines, pattern, r.value);
    } else if level != IgnorePunctuation {
      assert forall stricter :: Rank(stricter) < Rank(Laxer(level)) ==> stricter == level || Rank(stricter) < Rank(level);
      found := PassesFindStrictest(Laxer(level), lines, pattern, start);
    }
  }

  /**
   The position found is the leftmost one at the strictest level that matches
   anywhere in the range, and the search fails exactly when not even the laxest
   level matches.
   */
  lemma SeekFindsStrictestLeftmost(lines: Lines, pattern: Lines, start: nat, eof: bool)
    requires pattern != []
    ensures var s := SearchStart(lines, pattern, start, eof); var r := Seek(lines, pattern, start, eof);
            && (r.None? <==> NoMatch(Normalise, lines, pattern, s))
            && (r.Some? ==> exists level ::
                  Leftmost(Transform(level), lines, pattern, s, r.value) && NoneStricter(level, lines, pattern, s))
  {
    if |pattern| <= |lines| {
      var level := PassesFindStrictest(Exact, lines, pattern, SearchStart(lines, pattern, start, eof));
    }
  }

  /** A pass matches where the lines are alike. */
  lemma MatchMeans(level: Level, lines: Lines, pattern: Lines, i: int)
    ensures MatchesAt(Transform(level), lines, pattern, i) <==> AlikeAt(level, lines, pattern, i)
  {
    if 0 <= i && i + |pattern| <= |lines| {
      forall p | 0 <= p < |pattern|
        ensures Transform(level)(lines[i + p]) == Transform(level)(pattern[p]) <==> Alike(level, lines[i + p], pattern[p])
      {
        TransformMeans(level, lines[i + p], pattern[p]);
      }
    }
  }

  lemma MatchesMean(lines: Lines, pattern: Lines)
    ensures forall level, i :: MatchesAt(Transform(level), lines, pattern, i) <==> AlikeAt(level, lines, pattern, i)
  {
    forall level, i
      ensures MatchesAt(Transform(level), lines, pattern, i) <==> AlikeAt(level, lines, pattern, i)
    {
      MatchMeans(level, lines, pattern, i);
    }
  }

  /** The search answers as it must: what is found is alike at the strictest level that fits anywhere, and leftmost. */
  lemma SeekFinds(lines: Lines, pattern: Lines, start: nat, eof: bool)
    ensures Found(lines, pattern, start, eof, Seek(lines, pattern, start, eof))
  {
    if pattern != [] {
      var s, r := SearchStart(lines, pattern, start, eof), Seek(lines, pattern, start, eof);
      SeekFindsStrictestLeftmost(lines, pattern, start, eof);
      MatchesMean(lines, pattern);
      if r.Some? {
        var level :| Leftmost(Transform(level), lines, pattern, s, r.value) && NoneStricter(level, lines, pattern, s);
        assert Strictest(level, lines, pattern, s, r.value);
      } else {
        NothingAlike(lines, pattern, s);
      }
    }
  }

  lemma NothingAlike(lines: Lines, pattern: Lines, start: nat)
    requires NoMatch(Normalise, lines, pattern, start)
    ensures forall level, j :: start <= j ==> !AlikeAt(level, lines, pattern, j)
  {
    forall level, j | start <= j
      ensures !AlikeAt(level, lines, pattern, j)
    {
      MatchMeans(level, lines, pattern, j);
      if MatchesAt(Transform(level), lines, pattern, j) {
        LaxestMatch(level, lines, pattern, j);
      }
    }
  }

  /** A match lies inside the file, at or after the start unless the chunk is tied to the end of the file. */
  lemma SeekInBounds(lines: Lines, pattern: Lines, start: nat, eof: bool)
    requires start <= |lines|
    ensures var r := Seek(lines, pattern, start, eof);
            r.Some? ==> r.value + |pattern| <= |lines| && (!eof || pattern == [] ==> start <= r.value)
  {
    if pattern != [] {
      SeekFindsStrictestLeftmost(lines, pattern, start, eof);
    }
  }

  /** A pattern tied to the end of the file is found there or nowhere. */
  lemma SeekAtEnd(lines: Lines, pattern: Lines, start: nat)
    ensures var r := Seek(lines, pattern, start, true); r.Some? && pattern != [] ==> r.value + |pattern| == |lines|
  {
    if pattern != [] {
      SeekFindsStrictestLeftmost(lines, pattern, start, true);
    }
  }

  // ----- The loops

  method EqualLines(a: Lines, b: Lines) returns (r: bool)
    requires |a| == |b|
    ensures r <==> a == b
  {
    for i := 0 to |a|
      invariant forall t :: 0 <= t < i ==> a[t] == b[t]
    {
      if a[i] != b[i] {
        return false;
      }
    }
    return true;
  }

  /** A pass of the search under a line transformation. */
  method MatchWith(lines: Lines, pattern: Lines, searchStart: nat, last: int, transform: string -> string)
    returns (r: Option<nat>)
    requires pattern != [] && last == |lines| - |pattern|
    ensures r == FirstMatch(transform, lines, pattern, searchStart)
  {
    var i := searchStart;
    while i <= last
      invariant searchStart <= i
      invariant FirstMatch(transform, lines, pattern, searchStart) == FirstMatch(transform, lines, pattern, i)
      decreases last - i
    {
      var ok := true;
      for p := 0 to |pattern|
        invariant ok
        invariant forall t :: 0 <= t < p ==> transform(lines[i + t]) == transform(pattern[t])
      {
        if transform(lines[i + p]) != transform(pattern[p]) {
          ok := false;
          break;
        }
      }
      assert ok == MatchesAt(transform, lines, pattern, i);
      if ok {
        return Some(i);
      }
      i := i + 1;
    }
    return None;
  }

  /** The exact pass, which compares slices. */
  method MatchExactly(lines: Lines, pattern: Lines, searchStart: nat, last: int) returns (r: Option<nat>)
    requires pattern != [] && last == |lines| - |pattern|
    ensures r == FirstMatch(Transform(Exact), lines, pattern, searchStart)
  {
    ghost var id := Transform(Exact);
    var i := searchStart;
    while i <= last
      invariant searchStart <= i
      invariant FirstMatch(id, lines, pattern, searchStart) == FirstMatch(id, lines, pattern, i)
      decreases last - i
    {
      var slice := lines[i..i + |pattern|];
      var same := EqualLines(slice, pattern);
      assert forall p :: 0 <= p < |pattern| ==> slice[p] == lines[i + p];
      assert same == MatchesAt(id, lines, pattern, i);
      if same {
        return Some(i);
      }
      i := i + 1;
    }
    return None;
  }

  lemma NextPass(level: Level, lines: Lines, pattern: Lines, searchStart: nat)
    ensures var r := FirstMatch(Transform(level), lines, pattern, searchStart);
            Passes(level, lines, pattern, searchStart) ==
            if r.Some? || level == IgnorePunctuation then r else Passes(Laxer(level), lines, pattern, searchStart)
  {
  }

  method SeekSequence(lines: Lines, pattern: Lines, start: nat, eof: bool) returns (r: Option<nat>)
    ensures r == Seek(lines, pattern, start, eof)
    ensures Found(lines, pattern, start, eof, r)
  {
    SeekFinds(lines, pattern, start, eof);
    if |pattern| == 0 {
      return Some(start);
    }
    if |pattern| > |lines| {
      return None;
    }
    var searchStart := start;
    if eof && |lines| >= |pattern| {
      searchStart := |lines| - |pattern|;
    }
    var last := |lines| - |pattern|;
    r := MatchExactly(lines, pattern, searchStart, last);
    NextPass(Exact, lines, pattern, searchStart);
    if r.Some? {
      return;
    }
    r := MatchWith(lines, pattern, searchStart, last, TrimEnd);
    NextPass(IgnoreTrailing, lines, pattern, searchStart);
    if r.Some? {
      return;
    }
    r := MatchWith(lines, pattern, searchStart, last, TrimSpace);
    NextPass(IgnoreSurrounding, lines, pattern, searchStart);
    if r.Some? {
      return;
    }
    NextPass(IgnorePunctuation, lines, pattern, searchStart);
    r := MatchWith(lines, pattern, searchStart, last, Normalise);
  }
}
