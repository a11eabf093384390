/** The change lines of a patch chunk, and what they say of its old and new lines. */
module ChangeLines {

  type Lines = seq<string>

  /** A line of a chunk: context, removed or added; a context line without text may be left blank. */
  datatype ChangeLine = Keep(text: string) | Cut(text: string) | Put(text: string) | Blank

  function OldOf(line: ChangeLine): Lines {
    match line
    case Keep(text) => [text]
    case Cut(text) => [text]
    case Put(_) => []
    case Blank => [""]
  }

  function NewOf(line: ChangeLine): Lines {
    match line
    case Keep(text) => [text]
    case Cut(_) => []
    case Put(text) => [text]
    case Blank => [""]
  }

  /** The old lines that the first `n` change lines say: context and removals, in order. */
  function Olds(body: seq<ChangeLine>, n: nat): Lines
    requires n <= |body|
    decreases n
  {
    if n == 0 then [] else Olds(body, n - 1) + OldOf(body[n - 1])
  }

  /** The new lines that the first `n` change lines say: context and additions, in order. */
  function News(body: seq<ChangeLine>, n: nat): Lines
    requires n <= |body|
    decreases n
  {
    if n == 0 then [] else News(body, n - 1) + NewOf(body[n - 1])
  }

  /** What is said at the end of all change lines. */
  predicate Says(body: seq<ChangeLine>, olds: Lines, news: Lines) {
    Olds(body, |body|) == olds && News(body, |body|) == news
  }

  lemma {:induction false} SameSoFar(body: seq<ChangeLine>, line: ChangeLine, n: nat)
    requires n <= |body|
    ensures Olds(body + [line], n) == Olds(body, n) && News(body + [line], n) == News(body, n)
    decreases n
  {
    if n > 0 {
      SameSoFar(body, line, n - 1);
    }
  }

  lemma SaysMore(body: seq<ChangeLine>, olds: Lines, news: Lines, line: ChangeLine)
    requires Says(body, olds, news)
    ensures Says(body + [line], olds + OldOf(line), news + NewOf(line))
  {
    SameSoFar(body, line, |body|);
  }

  // ----- Removals before additions

  function Cuts(olds: Lines): seq<ChangeLine> {
    if olds == [] then [] else Cuts(olds[..|olds| - 1]) + [Cut(olds[|olds| - 1])]
  }

  function ThenPuts(cuts: seq<ChangeLine>, news: Lines): seq<ChangeLine> {
    if news == [] then cuts else ThenPuts(cuts, news[..|news| - 1]) + [Put(news[|news| - 1])]
  }

  function CanonicalBody(olds: Lines, news: Lines): seq<ChangeLine> {
    ThenPuts(Cuts(olds), news)
  }

  lemma {:induction false} CutsSay(olds: Lines, none: Lines)
    requires none == []
    ensures Says(Cuts(olds), olds, none)
  {
    if olds != [] {
      var n := |olds| - 1;
      var before, last := olds[..n], olds[n];
      CutsSay(before, none);
      SaysCut(Cuts(before), before, none, last);
      assert before + [last] == olds && Cuts(olds) == Cuts(before) + [Cut(last)];
    }
  }

  lemma SaysCut(body: seq<ChangeLine>, olds: Lines, news: Lines, text: string)
    requires Says(body, olds, news)
    ensures Says(body + [Cut(text)], olds + [text], news)
  {
    SaysMore(body, olds, news, Cut(text));
    assert news + [] == news;
  }

  lemma {:induction false} PutsSay(cuts: seq<ChangeLine>, olds: Lines, news: Lines)
    requires Says(cuts, olds, [])
    ensures Says(ThenPuts(cuts, news), olds, news)
  {
    if news != [] {
      var n := |news| - 1;
      PutsSay(cuts, olds, news[..n]);
      SaysMore(ThenPuts(cuts, news[..n]), olds, news[..n], Put(news[n]));
      assert news[..n] + [news[n]] == news && olds + [] == olds;
    }
  }

  lemma CanonicalBodySays(olds: Lines, news: Lines)
    ensures Says(CanonicalBody(olds, news), olds, news)
  {
    CutsSay(olds, []);
    PutsSay(Cuts(olds), olds, news);
  }

  /** Every canonical change line carries one of the lines. */
  ghost predicate Carries(body: seq<ChangeLine>, texts: Lines) {
    forall i :: 0 <= i < |body| ==> body[i] != Blank && body[i].text in texts
  }

  lemma {:induction false} CutsCarry(olds: Lines, texts: Lines)
    requires forall l :: l in olds ==> l in texts
    ensures Carries(Cuts(olds), texts) && |Cuts(olds)| == |olds|
  {
    if olds != [] {
      CutsCarry(olds[..|olds| - 1], texts);
    }
  }

  lemma {:induction false} PutsCarry(cuts: seq<ChangeLine>, news: Lines, texts: Lines)
    requires Carries(cuts, texts) && forall l :: l in news ==> l in texts
    ensures Carries(ThenPuts(cuts, news), texts) && |ThenPuts(cuts, news)| == |cuts| + |news|
  {
    if news != [] {
      PutsCarry(cuts, news[..|news| - 1], texts);
    }
  }

  lemma CanonicalBodyCarries(olds: Lines, news: Lines)
    ensures Carries(CanonicalBody(olds, news), olds + news) && |CanonicalBody(olds, news)| == |olds| + |news|
  {
    CutsCarry(olds, olds + news);
    PutsCarry(Cuts(olds), news, olds + news);
  }
}
