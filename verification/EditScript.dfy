/**
 Line-level edit scripts, the values that the Myers search produces and the
 hunk writer consumes (internal/applypatch/diff.go).

 A script is read as a path through the edit grid: a point `(x, y)` says that
 `x` old lines and `y` new lines have been consumed.
 */
module EditScript {

  type Line = string

  datatype OpKind = Equal | Delete | Insert

  /** `oldIndex`/`newIndex` are the positions on both sides at which the op applies. */
  datatype LineOp = LineOp(kind: OpKind, oldIndex: int, newIndex: int)

  function NextOld(op: LineOp, x: int): int {
    if op.kind == Insert then x else x + 1
  }

  function NextNew(op: LineOp, y: int): int {
    if op.kind == Delete then y else y + 1
  }

  /** The op may be performed at `(x, y)`. */
  predicate Applies(op: LineOp, a: seq<Line>, b: seq<Line>, x: nat, y: nat) {
    && op.oldIndex == x
    && op.newIndex == y
    && (op.kind != Insert ==> x < |a|)
    && (op.kind != Delete ==> y < |b|)
    && (op.kind == Equal ==> a[x] == b[y])
  }

  /** `ops` leads from `(x, y)` to `(x', y')`, one applicable op at a time. */
  predicate IsPath(ops: seq<LineOp>, a: seq<Line>, b: seq<Line>, x: nat, y: nat, x': nat, y': nat) {
    if ops == [] then x == x' && y == y'
    else
      && Applies(ops[0], a, b, x, y)
      && IsPath(ops[1..], a, b, NextOld(ops[0], x), NextNew(ops[0], y), x', y')
  }

  /** `ops` turns the whole of `a` into the whole of `b`. */
  predicate ValidScript(ops: seq<LineOp>, a: seq<Line>, b: seq<Line>) {
    IsPath(ops, a, b, 0, 0, |a|, |b|)
  }

  /** The number of deletions and insertions. */
  function Cost(ops: seq<LineOp>): nat {
    if ops == [] then 0
    else (if ops[0].kind == Equal then 0 else 1) + Cost(ops[1..])
  }

  function Deletions(ops: seq<LineOp>): (r: nat)
    ensures r <= Cost(ops)
  {
    if ops == [] then 0
    else (if ops[0].kind == Delete then 1 else 0) + Deletions(ops[1..])
  }

  /** The number of old lines the ops consume. */
  function OldCount(ops: seq<LineOp>): nat {
    if ops == [] then 0
    else (if ops[0].kind == Insert then 0 else 1) + OldCount(ops[1..])
  }

  /** The number of new lines the ops produce. */
  function NewCount(ops: seq<LineOp>): nat {
    if ops == [] then 0
    else (if ops[0].kind == Delete then 0 else 1) + NewCount(ops[1..])
  }

  lemma {:induction false} PathConcat(p: seq<LineOp>, q: seq<LineOp>, a: seq<Line>, b: seq<Line>,
                                      x: nat, y: nat, u: nat, v: nat, x': nat, y': nat)
    requires IsPath(p, a, b, x, y, u, v)
    requires IsPath(q, a, b, u, v, x', y')
    ensures IsPath(p + q, a, b, x, y, x', y')
    ensures Cost(p + q) == Cost(p) + Cost(q)
  {
    if p == [] {
      assert p + q == q;
    } else {
      assert (p + q)[1..] == p[1..] + q;
      PathConcat(p[1..], q, a, b, NextOld(p[0], x), NextNew(p[0], y), u, v, x', y');
    }
  }

  /** A path can be cut anywhere: the cut point is determined by the ops before it. */
  lemma {:induction false} PathSplit(ops: seq<LineOp>, i: nat, a: seq<Line>, b: seq<Line>,
                                     x: nat, y: nat, x': nat, y': nat)
    requires i <= |ops|
    requires IsPath(ops, a, b, x, y, x', y')
    ensures IsPath(ops[..i], a, b, x, y, x + OldCount(ops[..i]), y + NewCount(ops[..i]))
    ensures IsPath(ops[i..], a, b, x + OldCount(ops[..i]), y + NewCount(ops[..i]), x', y')
    ensures Cost(ops) == Cost(ops[..i]) + Cost(ops[i..])
  {
    if i > 0 {
      assert ops[..i][1..] == ops[1..][..i - 1];
      assert ops[i..] == ops[1..][i - 1..];
      PathSplit(ops[1..], i - 1, a, b, NextOld(ops[0], x), NextNew(ops[0], y), x', y');
    } else {
      assert ops[i..] == ops;
    }
  }

  /** A path moves forward by exactly the lines it consumes, and stays inside the grid. */
  lemma {:induction false} PathEnd(ops: seq<LineOp>, a: seq<Line>, b: seq<Line>, x: nat, y: nat, x': nat, y': nat)
    requires IsPath(ops, a, b, x, y, x', y')
    ensures x' == x + OldCount(ops) && y' == y + NewCount(ops)
    ensures x <= |a| && y <= |b| ==> x' <= |a| && y' <= |b|
  {
    if ops != [] {
      PathEnd(ops[1..], a, b, NextOld(ops[0], x), NextNew(ops[0], y), x', y');
    }
  }

  /** Appending an op to a path. */
  lemma {:induction false} CountsAppend(ops: seq<LineOp>, op: LineOp)
    ensures Cost(ops + [op]) == Cost(ops) + if op.kind == Equal then 0 else 1
    ensures Deletions(ops + [op]) == Deletions(ops) + if op.kind == Delete then 1 else 0
    ensures OldCount(ops + [op]) == OldCount(ops) + if op.kind == Insert then 0 else 1
    ensures NewCount(ops + [op]) == NewCount(ops) + if op.kind == Delete then 0 else 1
  {
    if ops == [] {
      assert [] + [op] == [op];
    } else {
      assert (ops + [op])[1..] == ops[1..] + [op];
      CountsAppend(ops[1..], op);
    }
  }

  // ----- What a script does to the lines

  /** Every line the ops mention exists. */
  predicate InRange(ops: seq<LineOp>, a: seq<Line>, b: seq<Line>) {
    ops == [] ||
    (&& (ops[0].kind != Insert ==> 0 <= ops[0].oldIndex < |a|)
     && (ops[0].kind == Insert ==> 0 <= ops[0].newIndex < |b|)
     && InRange(ops[1..], a, b))
  }

  /** The lines the ops read from the old text. */
  function OldSide(ops: seq<LineOp>, a: seq<Line>, b: seq<Line>): seq<Line>
    requires InRange(ops, a, b)
  {
    if ops == [] then []
    else (if ops[0].kind == Insert then [] else [a[ops[0].oldIndex]]) + OldSide(ops[1..], a, b)
  }

  /** The lines the ops leave behind: kept lines come from the old text, inserted ones from the new. */
  function NewSide(ops: seq<LineOp>, a: seq<Line>, b: seq<Line>): seq<Line>
    requires InRange(ops, a, b)
  {
    if ops == [] then []
    else
      (match ops[0].kind
       case Equal => [a[ops[0].oldIndex]]
       case Delete => []
       case Insert => [b[ops[0].newIndex]])
      + NewSide(ops[1..], a, b)
  }

  /** A slice starts with its first element. */
  lemma SliceStep(s: seq<Line>, lo: nat, hi: nat)
    requires lo < hi <= |s|
    ensures s[lo..hi] == [s[lo]] + s[lo + 1..hi]
  {
  }

  lemma {:induction false} PathInRange(ops: seq<LineOp>, a: seq<Line>, b: seq<Line>, x: nat, y: nat, x': nat, y': nat)
    requires IsPath(ops, a, b, x, y, x', y')
    ensures InRange(ops, a, b)
  {
    if ops != [] {
      PathInRange(ops[1..], a, b, NextOld(ops[0], x), NextNew(ops[0], y), x', y');
    }
  }

  lemma {:induction false} PathOldSide(ops: seq<LineOp>, a: seq<Line>, b: seq<Line>, x: nat, y: nat, x': nat, y': nat)
    requires IsPath(ops, a, b, x, y, x', y') && InRange(ops, a, b)
    requires x <= x' <= |a|
    ensures OldSide(ops, a, b) == a[x..x']
  {
    if ops != [] {
      var u, v := NextOld(ops[0], x), NextNew(ops[0], y);
      PathEnd(ops[1..], a, b, u, v, x', y');
      PathOldSide(ops[1..], a, b, u, v, x', y');
      if ops[0].kind != Insert {
        SliceStep(a, x, x');
      }
    }
  }

  lemma {:induction false} PathNewSide(ops: seq<LineOp>, a: seq<Line>, b: seq<Line>, x: nat, y: nat, x': nat, y': nat)
    requires IsPath(ops, a, b, x, y, x', y') && InRange(ops, a, b)
    requires y <= y' <= |b|
    ensures NewSide(ops, a, b) == b[y..y']
  {
    if ops != [] {
      var u, v := NextOld(ops[0], x), NextNew(ops[0], y);
      PathEnd(ops[1..], a, b, u, v, x', y');
      PathNewSide(ops[1..], a, b, u, v, x', y');
      if ops[0].kind != Delete {
        SliceStep(b, y, y');
      }
    }
  }

  /** A path from `(x, y)` to `(x', y')` reads `a[x..x']` and writes `b[y..y']`, in order. */
  lemma PathSides(ops: seq<LineOp>, a: seq<Line>, b: seq<Line>, x: nat, y: nat, x': nat, y': nat)
    requires IsPath(ops, a, b, x, y, x', y')
    requires x <= |a| && y <= |b|
    ensures x <= x' <= |a| && y <= y' <= |b|
    ensures InRange(ops, a, b)
    ensures OldSide(ops, a, b) == a[x..x']
    ensures NewSide(ops, a, b) == b[y..y']
  {
    PathEnd(ops, a, b, x, y, x', y');
    PathInRange(ops, a, b, x, y, x', y');
    PathOldSide(ops, a, b, x, y, x', y');
    PathNewSide(ops, a, b, x, y, x', y');
  }

  /** Replaying a valid script consumes exactly the old text and yields exactly the new one. */
  lemma ScriptTransforms(ops: seq<LineOp>, a: seq<Line>, b: seq<Line>)
    requires ValidScript(ops, a, b)
    ensures InRange(ops, a, b)
    ensures OldSide(ops, a, b) == a
    ensures NewSide(ops, a, b) == b
  {
    PathSides(ops, a, b, 0, 0, |a|, |b|);
  }

  // ----- The longest common subsequence, an independent yardstick for Cost

  /** The length of a longest common subsequence of `a[x..]` and `b[y..]`. */
  function Lcs(a: seq<Line>, b: seq<Line>, x: nat, y: nat): (r: nat)
    requires x <= |a| && y <= |b|
    decreases |a| - x + |b| - y
  {
    if x == |a| || y == |b| then 0
    else if a[x] == b[y] then 1 + Lcs(a, b, x + 1, y + 1)
    else
      var skipOld := Lcs(a, b, x + 1, y);
      var skipNew := Lcs(a, b, x, y + 1);
      if skipOld >= skipNew then skipOld else skipNew
  }

  /** Skipping one line on one side loses at most one common line and never gains one. */
  lemma {:induction false} LcsSkip(a: seq<Line>, b: seq<Line>, x: nat, y: nat)
    requires x <= |a| && y <= |b|
    ensures x < |a| ==> Lcs(a, b, x + 1, y) <= Lcs(a, b, x, y) <= 1 + Lcs(a, b, x + 1, y)
    ensures y < |b| ==> Lcs(a, b, x, y + 1) <= Lcs(a, b, x, y) <= 1 + Lcs(a, b, x, y + 1)
    decreases |a| - x + |b| - y
  {
    if x < |a| && y < |b| {
      LcsSkip(a, b, x + 1, y);
      LcsSkip(a, b, x, y + 1);
      LcsSkip(a, b, x + 1, y + 1);
    }
  }

  /** No script is cheaper than the bound the longest common subsequence gives. */
  lemma {:induction false} CostAtLeastLcs(ops: seq<LineOp>, a: seq<Line>, b: seq<Line>, x: nat, y: nat)
    requires x <= |a| && y <= |b|
    requires IsPath(ops, a, b, x, y, |a|, |b|)
    ensures Cost(ops) >= |a| - x + |b| - y - 2 * Lcs(a, b, x, y)
  {
    if ops != [] {
      CostAtLeastLcs(ops[1..], a, b, NextOld(ops[0], x), NextNew(ops[0], y));
      LcsSkip(a, b, x, y);
    }
  }

  /** A script that meets the bound. */
  function LcsScript(a: seq<Line>, b: seq<Line>, x: nat, y: nat): (ops: seq<LineOp>)
    requires x <= |a| && y <= |b|
    ensures IsPath(ops, a, b, x, y, |a|, |b|)
    ensures Cost(ops) == |a| - x + |b| - y - 2 * Lcs(a, b, x, y)
    decreases |a| - x + |b| - y
  {
    if x == |a| && y == |b| then []
    else if x < |a| && y < |b| && a[x] == b[y] then
      [LineOp(Equal, x, y)] + LcsScript(a, b, x + 1, y + 1)
    else if y == |b| || (x < |a| && Lcs(a, b, x + 1, y) >= Lcs(a, b, x, y + 1)) then
      [LineOp(Delete, x, y)] + LcsScript(a, b, x + 1, y)
    else
      [LineOp(Insert, x, y)] + LcsScript(a, b, x, y + 1)
  }
}
