/** The order of Go's `sort.Strings`. */
module StringOrder {

  import opened Sorting

  /** Lexicographic order by code point, which for UTF-8 is the order of the bytes. */
  predicate Leq(s: string, t: string) {
    s == "" || (t != "" && (s[0] < t[0] || (s[0] == t[0] && Leq(s[1..], t[1..]))))
  }

  predicate Less(s: string, t: string) {
    Leq(s, t) && s != t
  }

  lemma {:induction false} LeqTotal(s: string, t: string)
    ensures Leq(s, t) || Leq(t, s)
  {
    if s != "" && t != "" && s[0] == t[0] {
      LeqTotal(s[1..], t[1..]);
    }
  }

  lemma {:induction false} LeqAntisymmetric(s: string, t: string)
    requires Leq(s, t) && Leq(t, s)
    ensures s == t
  {
    if s != "" && t != "" {
      LeqAntisymmetric(s[1..], t[1..]);
      assert s == [s[0]] + s[1..] && t == [t[0]] + t[1..];
    }
  }

  lemma {:induction false} LeqTransitive(s: string, t: string, u: string)
    requires Leq(s, t) && Leq(t, u)
    ensures Leq(s, u)
  {
    if s != "" && s[0] == t[0] && t[0] == u[0] {
      LeqTransitive(s[1..], t[1..], u[1..]);
    }
  }

  lemma LessTransitive(s: string, t: string, u: string)
    requires Less(s, t) && Less(t, u)
    ensures Less(s, u)
  {
    LeqTransitive(s, t, u);
    if s == u {
      LeqAntisymmetric(s, t);
    }
  }

  lemma LessTotal(s: string, t: string)
    ensures s == t || Less(s, t) || Less(t, s)
    ensures !(Less(s, t) && Less(t, s))
  {
    LeqTotal(s, t);
    if Leq(s, t) && Leq(t, s) {
      LeqAntisymmetric(s, t);
    }
  }

  lemma LessIsOrder()
    ensures IsOrder(Less)
  {
    forall s, t
      ensures s == t || Less(s, t) || Less(t, s)
      ensures !(Less(s, t) && Less(t, s))
    {
      LessTotal(s, t);
    }
    forall s, t, u | Less(s, t) && Less(t, u)
      ensures Less(s, u)
    {
      LessTransitive(s, t, u);
    }
  }
}
