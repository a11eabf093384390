/** Sorting distinct values by a strict total order, as Go's `sort.Strings` and `sort.Ints` do. */
module Sorting {

  ghost predicate IsOrder<T(!new)>(less: (T, T) -> bool) {
    && (forall x, y :: !(less(x, y) && less(y, x)))
    && (forall x, y :: x == y || less(x, y) || less(y, x))
    && forall x, y, z :: less(x, y) && less(y, z) ==> less(x, z)
  }

  ghost predicate Distinct<T>(s: seq<T>) {
    forall i, j :: 0 <= i < j < |s| ==> s[i] != s[j]
  }

  /** Each element comes before every later one. */
  ghost predicate Ordered<T>(s: seq<T>, before: (T, T) -> bool) {
    forall i, j :: 0 <= i < j < |s| ==> before(s[i], s[j])
  }

  /** Puts `x` in its place, unless it is there. */
  function Insert<T(==)>(x: T, sorted: seq<T>, less: (T, T) -> bool): seq<T> {
    if sorted == [] || less(x, sorted[0]) then [x] + sorted
    else if x == sorted[0] then sorted
    else [sorted[0]] + Insert(x, sorted[1..], less)
  }

  function Sort<T(==)>(s: seq<T>, less: (T, T) -> bool): seq<T> {
    if s == [] then [] else Insert(s[0], Sort(s[1..], less), less)
  }

  lemma {:induction false} InsertMembers<T>(x: T, sorted: seq<T>, less: (T, T) -> bool)
    ensures forall y :: y in Insert(x, sorted, less) <==> y == x || y in sorted
  {
    if sorted != [] && !less(x, sorted[0]) && x != sorted[0] {
      InsertMembers(x, sorted[1..], less);
      assert sorted == [sorted[0]] + sorted[1..];
    }
  }

  lemma {:induction false} InsertOrdered<T(!new)>(x: T, sorted: seq<T>, less: (T, T) -> bool)
    requires IsOrder(less) && Ordered(sorted, less)
    ensures Ordered(Insert(x, sorted, less), less)
  {
    if sorted == [] || x == sorted[0] {
    } else if less(x, sorted[0]) {
      assert forall j :: 0 < j < |sorted| ==> less(sorted[0], sorted[j]);
    } else {
      var head, tail := sorted[0], Insert(x, sorted[1..], less);
      InsertOrdered(x, sorted[1..], less);
      InsertMembers(x, sorted[1..], less);
      forall j | 0 <= j < |tail|
        ensures less(head, tail[j])
      {
        assert tail[j] in tail;
        assert tail[j] == x || tail[j] in sorted[1..];
      }
    }
  }

  /** Sorting yields the same values in order, each once. */
  lemma {:induction false} SortOrders<T(!new)>(s: seq<T>, less: (T, T) -> bool)
    requires IsOrder(less)
    ensures Ordered(Sort(s, less), less) && forall x :: x in Sort(s, less) <==> x in s
  {
    if s != [] {
      SortOrders(s[1..], less);
      InsertMembers(s[0], Sort(s[1..], less), less);
      InsertOrdered(s[0], Sort(s[1..], less), less);
      assert s == [s[0]] + s[1..];
    }
  }

  /** Under an asymmetric relation, an ordered list is determined by its members. */
  lemma {:induction false} OrderedUnique<T>(s: seq<T>, t: seq<T>, before: (T, T) -> bool)
    requires forall x, y :: !(before(x, y) && before(y, x))
    requires Ordered(s, before) && Ordered(t, before)
    requires (forall i :: 0 <= i < |s| ==> s[i] in t) && (forall i :: 0 <= i < |t| ==> t[i] in s)
    ensures s == t
  {
    if s == [] {
      assert forall i :: 0 <= i < |t| ==> t[i] in t;
    } else {
      assert s[0] in t;
      SameHead(s, t, before);
      OnceOnly(s, before);
      OnceOnly(t, before);
      assert s == [s[0]] + s[1..] && t == [t[0]] + t[1..];
      forall x | x in s[1..]
        ensures x in t[1..]
      {
        assert x in s && x in [t[0]] + t[1..];
      }
      forall x | x in t[1..]
        ensures x in s[1..]
      {
        assert x in t && x in [s[0]] + s[1..];
      }
      OrderedUnique(s[1..], t[1..], before);
    }
  }

  lemma OnceOnly<T>(s: seq<T>, before: (T, T) -> bool)
    requires forall x, y :: !(before(x, y) && before(y, x))
    requires s != [] && Ordered(s, before)
    ensures s[0] !in s[1..]
  {
    assert forall i :: 1 <= i < |s| ==> before(s[0], s[i]);
  }

  lemma SameHead<T>(s: seq<T>, t: seq<T>, before: (T, T) -> bool)
    requires forall x, y :: !(before(x, y) && before(y, x))
    requires s != [] && t != [] && Ordered(s, before) && Ordered(t, before)
    requires s[0] in t && t[0] in s
    ensures s[0] == t[0]
  {
    var i :| 0 <= i < |t| && t[i] == s[0];
    var j :| 0 <= j < |s| && s[j] == t[0];
    assert i > 0 ==> before(t[0], s[0]);
    assert j > 0 ==> before(s[0], t[0]);
  }
}
