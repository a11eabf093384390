/**
 The string operations that the patch parser and the fuzzy search share: Go's
 `strings.TrimSpace` and its relatives, over Unicode code points.
 */
module Whitespace {

  /** The code points of `isUnicodeWhitespace`, which are those of Go's `unicode.IsSpace`. */
  predicate IsSpace(c: char) {
    || c == '\t' || c == '\n' || c == '\U{000B}' || c == '\U{000C}' || c == '\r' || c == ' '
    || c == '\U{0085}' || c == '\U{00A0}' || c == '\U{1680}' || '\U{2000}' <= c <= '\U{200A}'
    || c == '\U{2028}' || c == '\U{2029}' || c == '\U{202F}' || c == '\U{205F}' || c == '\U{3000}'
  }

  predicate AllSpace(s: string) {
    forall i :: 0 <= i < |s| ==> IsSpace(s[i])
  }

  /** The end of `s[..n]` without its trailing whitespace. */
  function EndOf(s: string, n: nat): (r: nat)
    requires n <= |s|
    ensures r <= n
  {
    if n > 0 && IsSpace(s[n - 1]) then EndOf(s, n - 1) else n
  }

  /** The start of `s[i..n]` without its leading whitespace. */
  function StartOf(s: string, i: nat, n: nat): (r: nat)
    requires i <= n <= |s|
    ensures i <= r <= n
    decreases n - i
  {
    if i < n && IsSpace(s[i]) then StartOf(s, i + 1, n) else i
  }

  function TrimEnd(s: string): string {
    s[..EndOf(s, |s|)]
  }

  function TrimStart(s: string): string {
    s[StartOf(s, 0, |s|)..]
  }

  function TrimSpace(s: string): string {
    var n := EndOf(s, |s|);
    s[StartOf(s, 0, n)..n]
  }

  // ----- What trimming removes

  lemma {:induction false} EndOfIsTight(s: string, n: nat)
    requires n <= |s|
    ensures var e := EndOf(s, n);
            (e == 0 || !IsSpace(s[e - 1])) && forall i :: e <= i < n ==> IsSpace(s[i])
  {
    if n > 0 && IsSpace(s[n - 1]) {
      EndOfIsTight(s, n - 1);
    }
  }

  lemma {:induction false} StartOfIsTight(s: string, i: nat, n: nat)
    requires i <= n <= |s|
    ensures var b := StartOf(s, i, n);
            (b == n || !IsSpace(s[b])) && forall j :: i <= j < b ==> IsSpace(s[j])
    decreases n - i
  {
    if i < n && IsSpace(s[i]) {
      StartOfIsTight(s, i + 1, n);
    }
  }

  /** Trimming a text that is all whitespace leaves nothing, and only then. */
  lemma TrimSpaceEmpty(s: string)
    ensures TrimSpace(s) == "" <==> AllSpace(s)
  {
    var n := EndOf(s, |s|);
    EndOfIsTight(s, |s|);
    StartOfIsTight(s, 0, n);
  }

  /** Whitespace around a text that neither begins nor ends with any is what trimming removes. */
  lemma TrimSurrounded(l: string, s: string, r: string)
    requires AllSpace(l) && AllSpace(r)
    requires s != "" && !IsSpace(s[0]) && !IsSpace(s[|s| - 1])
    ensures TrimSpace(l + s + r) == s
  {
    var t := l + s + r;
    var n := EndOf(t, |t|);
    assert t[|l| + |s| - 1] == s[|s| - 1];
    assert forall i :: |l| + |s| <= i < |t| ==> t[i] == r[i - |l| - |s|];
    EndOfIsTight(t, |t|);
    assert n == |l| + |s|;
    assert t[|l|] == s[0];
    assert forall i :: 0 <= i < |l| ==> t[i] == l[i];
    StartOfIsTight(t, 0, n);
    assert StartOf(t, 0, n) == |l|;
  }

  lemma TrimNothing(s: string)
    requires s != "" && !IsSpace(s[0]) && !IsSpace(s[|s| - 1])
    ensures TrimSpace(s) == s && TrimStart(s) == s
  {
  }

  /** Trimming both ends is trimming one after the other. */
  lemma TrimSpaceInTwoSteps(s: string)
    ensures TrimSpace(s) == TrimStart(TrimEnd(s))
  {
    var n := EndOf(s, |s|);
    StartOfPrefix(s, 0, n);
  }

  lemma {:induction false} StartOfPrefix(s: string, i: nat, n: nat)
    requires i <= n <= |s|
    ensures StartOf(s[..n], i, n) == StartOf(s, i, n)
    decreases n - i
  {
    if i < n && IsSpace(s[i]) {
      StartOfPrefix(s, i + 1, n);
    }
  }
}
