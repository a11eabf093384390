/**
 When a pattern line counts as found in a file, and where a block of pattern
 lines is found (the promise at the head of internal/applypatch/seek_sequence.go),
 stated on the lines themselves rather than by trimming and mapping them.
 */
module Likeness {

  import opened PatchTypes

  type Lines = seq<string>

  /** How strictly two lines are compared. */
  datatype Level = Exact | IgnoreTrailing | IgnoreSurrounding | IgnorePunctuation

  function Rank(level: Level): nat {
    match level
    case Exact => 0
    case IgnoreTrailing => 1
    case IgnoreSurrounding => 2
    case IgnorePunctuation => 3
  }

  /** The code points with the Unicode property White_Space. */
  const WHITE_SPACE: set<char> := {
    '\t', '\n', '\U{000B}', '\U{000C}', '\r', ' ', '\U{0085}', '\U{00A0}', '\U{1680}',
    '\U{2000}', '\U{2001}', '\U{2002}', '\U{2003}', '\U{2004}', '\U{2005}', '\U{2006}',
    '\U{2007}', '\U{2008}', '\U{2009}', '\U{200A}', '\U{2028}', '\U{2029}', '\U{202F}',
    '\U{205F}', '\U{3000}'
  }

  const DASHES: set<char> := {
    '-', '\U{2010}', '\U{2011}', '\U{2012}', '\U{2013}', '\U{2014}', '\U{2015}', '\U{2212}'
  }

  const SINGLE_QUOTES: set<char> := {'\'', '\U{2018}', '\U{2019}', '\U{201A}', '\U{201B}'}

  const DOUBLE_QUOTES: set<char> := {'"', '\U{201C}', '\U{201D}', '\U{201E}', '\U{201F}'}

  const SPACES: set<char> := {
    ' ', '\U{00A0}', '\U{2002}', '\U{2003}', '\U{2004}', '\U{2005}', '\U{2006}', '\U{2007}',
    '\U{2008}', '\U{2009}', '\U{200A}', '\U{202F}', '\U{205F}', '\U{3000}'
  }

  predicate White(s: string) {
    forall i :: 0 <= i < |s| ==> s[i] in WHITE_SPACE
  }

  /** `s` is `core` with whitespace around it. */
  predicate Around(s: string, left: string, core: string, right: string) {
    White(left) && White(right) && s == left + core + right
  }

  /** The same character, but for the shape of a dash, a quote or a space. */
  predicate SameRune(c: char, d: char) {
    || c == d
    || (c in DASHES && d in DASHES)
    || (c in SINGLE_QUOTES && d in SINGLE_QUOTES)
    || (c in DOUBLE_QUOTES && d in DOUBLE_QUOTES)
    || (c in SPACES && d in SPACES)
  }

  predicate SameRunes(s: string, t: string) {
    |s| == |t| && forall i :: 0 <= i < |s| ==> SameRune(s[i], t[i])
  }

  /** The lines are the same, at the given strictness. */
  ghost predicate Alike(level: Level, s: string, t: string) {
    match level
    case Exact => s == t
    case IgnoreTrailing => exists core, v, w :: Around(s, "", core, v) && Around(t, "", core, w)
    case IgnoreSurrounding => exists core, u, v, w, x :: Around(s, u, core, v) && Around(t, w, core, x)
    case IgnorePunctuation =>
      exists c, d, u, v, w, x :: Around(s, u, c, v) && Around(t, w, d, x) && SameRunes(c, d)
  }

  ghost predicate AlikeAt(level: Level, lines: Lines, pattern: Lines, i: int) {
    && 0 <= i && i + |pattern| <= |lines|
    && forall p :: 0 <= p < |pattern| ==> Alike(level, lines[i + p], pattern[p])
  }

  /** The first place from `from` on, at a level that is the strictest to have any. */
  ghost predicate Strictest(level: Level, lines: Lines, pattern: Lines, from: nat, i: nat) {
    && from <= i && AlikeAt(level, lines, pattern, i)
    && (forall j :: from <= j < i ==> !AlikeAt(level, lines, pattern, j))
    && (forall stricter, j :: Rank(stricter) < Rank(level) && from <= j ==> !AlikeAt(stricter, lines, pattern, j))
  }

  /** What the search for a block of pattern lines must answer. */
  ghost predicate Found(lines: Lines, pattern: Lines, start: nat, eof: bool, r: Option<nat>) {
    if pattern == [] then r == Some(start)
    else
      var from := if eof && |pattern| <= |lines| then |lines| - |pattern| else start;
      match r
      case None => forall level, j :: from <= j ==> !AlikeAt(level, lines, pattern, j)
      case Some(i) => exists level :: Strictest(level, lines, pattern, from, i)
  }

  /** The answer is unique. */
  lemma FoundUnique(lines: Lines, pattern: Lines, start: nat, eof: bool, r: Option<nat>, q: Option<nat>)
    requires Found(lines, pattern, start, eof, r) && Found(lines, pattern, start, eof, q)
    ensures r == q
  {
    if pattern != [] && r.Some? && q.Some? {
      var from := if eof && |pattern| <= |lines| then |lines| - |pattern| else start;
      var level :| Strictest(level, lines, pattern, from, r.value);
      var other :| Strictest(other, lines, pattern, from, q.value);
      if Rank(level) == Rank(other) {
        assert level == other;
      }
    }
  }
}
