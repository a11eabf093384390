/** Strings that the diff writer and the chat aggregator build: concatenations and decimal numerals. */
module Text {

  function Concat(pieces: seq<string>): string {
    if pieces == [] then "" else pieces[0] + Concat(pieces[1..])
  }

  lemma {:induction false} ConcatAppend(pieces: seq<string>, piece: string)
    ensures Concat(pieces + [piece]) == Concat(pieces) + piece
  {
    if pieces == [] {
      assert pieces + [piece] == [piece] && [piece][1..] == [];
    } else {
      assert (pieces + [piece])[1..] == pieces[1..] + [piece];
      ConcatAppend(pieces[1..], piece);
    }
  }

  function Digit(n: nat): char
    requires n < 10
  {
    "0123456789"[n]
  }

  function Decimal(n: int): string
    decreases n < 0, if n < 0 then -n else n
  {
    if n < 0 then "-" + Decimal(-n)
    else if n < 10 then [Digit(n)]
    else Decimal(n / 10) + [Digit(n % 10)]
  }

  lemma {:induction false} ConcatJoins(p: seq<string>, q: seq<string>)
    ensures Concat(p + q) == Concat(p) + Concat(q)
  {
    if p == [] {
      assert p + q == q;
    } else {
      assert (p + q)[1..] == p[1..] + q;
      ConcatJoins(p[1..], q);
    }
  }

  predicate IsDigit(c: char) {
    '0' <= c <= '9'
  }

  lemma {:induction false} DecimalDigits(n: nat)
    ensures Decimal(n) != "" && forall i :: 0 <= i < |Decimal(n)| ==> IsDigit(Decimal(n)[i])
  {
    if n >= 10 {
      DecimalDigits(n / 10);
    }
  }

  /** A numeral names one number. */
  lemma {:induction false} DecimalInjective(m: nat, n: nat)
    requires Decimal(m) == Decimal(n)
    ensures m == n
  {
    DecimalDigits(m / 10);
    DecimalDigits(n / 10);
    if m >= 10 && n >= 10 {
      var p, q := Decimal(m / 10), Decimal(n / 10);
      assert p == Decimal(m)[..|Decimal(m)| - 1] && q == Decimal(n)[..|Decimal(n)| - 1];
      assert Decimal(m)[|p|] == Digit(m % 10) && Decimal(n)[|q|] == Digit(n % 10);
      DecimalInjective(m / 10, n / 10);
    }
  }

  /** A text is cut at the first occurrence of a separator in only one way. */
  lemma CutUnique(c: char, p: string, q: string, r: string, s: string)
    requires p + [c] + q == r + [c] + s && c !in p && c !in r
    ensures p == r && q == s
  {
    var text := p + [c] + q;
    assert text[..|p|] == p && text[|p|] == c && text[|p| + 1..] == q;
    assert text[..|r|] == r && text[|r|] == c && text[|r| + 1..] == s;
    assert forall i :: 0 <= i < |p| ==> text[i] == p[i] && p[i] != c;
    assert forall i :: 0 <= i < |r| ==> text[i] == r[i] && r[i] != c;
  }
}
