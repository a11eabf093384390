/**
 The Myers O(ND) line diff (internal/applypatch/diff.go).

 The forward search keeps, for every diagonal `k == x - y`, the furthest old
 position it can reach with `d` edits. A path with `d` edits of which `i` are
 deletions ends on diagonal `2 * i - d`, so the table is indexed by `(d, i)`.

 The search does not test the borders of the grid when it steps sideways, so
 the table is the furthest reach in an unbounded grid whose diagonal steps
 exist only inside `a` and `b`. `ClippedScript` pulls such a path back inside
 the grid; together with `Dominates` it shows that the first point to pass the
 stop test is the corner itself, and that no script gets there more cheaply.
 */
module Myers {

  import opened EditScript

  // ----- The furthest-reaching table

  /** The two lines at old position `x` on diagonal `k` exist and are equal. */
  predicate Matches(a: seq<Line>, b: seq<Line>, x: int, k: int) {
    0 <= x < |a| && 0 <= x - k < |b| && a[x] == b[x - k]
  }

  /** The end of the run of equal lines that starts at `x` on diagonal `k`. */
  function Snake(a: seq<Line>, b: seq<Line>, x: nat, k: int): (r: nat)
    ensures x <= r
    ensures !Matches(a, b, r, k)
    ensures forall i :: x <= i < r ==> Matches(a, b, i, k)
    decreases |a| - x
  {
    if Matches(a, b, x, k) then Snake(a, b, x + 1, k) else x
  }

  /** The furthest old position after `d` edits, `i` of them deletions. */
  function Reach(a: seq<Line>, b: seq<Line>, d: nat, i: nat): (r: nat)
    requires i <= d
    ensures r >= 2 * i - d
    decreases d, 1
  {
    Snake(a, b, Entry(a, b, d, i), 2 * i - d)
  }

  /** Whether round `d` enters the diagonal by an insertion rather than a deletion. */
  predicate ByInsertion(a: seq<Line>, b: seq<Line>, d: nat, i: nat)
    requires 0 < d && i <= d
    decreases d, 0, 0
  {
    i == 0 || (i != d && Reach(a, b, d - 1, i - 1) < Reach(a, b, d - 1, i))
  }

  /** Where round `d` enters the diagonal, before it follows equal lines. */
  function Entry(a: seq<Line>, b: seq<Line>, d: nat, i: nat): (r: nat)
    requires i <= d
    ensures r >= 2 * i - d
    decreases d, 0, 1
  {
    if d == 0 then 0
    else if ByInsertion(a, b, d, i) then Reach(a, b, d - 1, i)
    else Reach(a, b, d - 1, i - 1) + 1
  }

  /** The stop test of the forward search. */
  predicate Stops(a: seq<Line>, b: seq<Line>, d: nat, i: nat)
    requires i <= d
  {
    Reach(a, b, d, i) >= |a| && Reach(a, b, d, i) - (2 * i - d) >= |b|
  }

  // ----- No script gets further than the table

  /** The previous round's neighbours never lie beyond this round's entry. */
  lemma EntryDominates(a: seq<Line>, b: seq<Line>, d: nat, i: nat)
    requires 0 < d && i <= d
    ensures i < d ==> Reach(a, b, d - 1, i) <= Entry(a, b, d, i)
    ensures 0 < i ==> Reach(a, b, d - 1, i - 1) + 1 <= Entry(a, b, d, i)
  {
  }

  /** One step of a path that respects the table leads to a point that does. */
  lemma StepDominates(a: seq<Line>, b: seq<Line>, d: nat, i: nat, x: nat, y: nat, op: LineOp)
    requires i <= d && x - y == 2 * i - d && x <= Reach(a, b, d, i)
    requires Applies(op, a, b, x, y)
    ensures op.kind == Equal ==> x + 1 <= Reach(a, b, d, i)
    ensures op.kind == Insert ==> x <= Reach(a, b, d + 1, i)
    ensures op.kind == Delete ==> x + 1 <= Reach(a, b, d + 1, i + 1)
  {
    match op.kind
    case Equal =>
      assert Matches(a, b, x, 2 * i - d);
    case Insert =>
      EntryDominates(a, b, d + 1, i);
    case Delete =>
      EntryDominates(a, b, d + 1, i + 1);
  }

  /** A path ends on the diagonal of its own counts, no further than the table says. */
  lemma {:induction false} Dominates(ops: seq<LineOp>, a: seq<Line>, b: seq<Line>, x: nat, y: nat)
    requires IsPath(ops, a, b, 0, 0, x, y)
    ensures x - y == 2 * Deletions(ops) - Cost(ops)
    ensures x <= Reach(a, b, Cost(ops), Deletions(ops))
    decreases |ops|
  {
    if ops != [] {
      var before, op := ops[..|ops| - 1], ops[|ops| - 1];
      assert ops == before + [op];
      var u, v := PathLast(ops, a, b, x, y);
      Dominates(before, a, b, u, v);
      DominatesAppend(before, op, a, b, u, v);
    }
  }

  lemma DominatesAppend(before: seq<LineOp>, op: LineOp, a: seq<Line>, b: seq<Line>, u: nat, v: nat)
    requires u - v == 2 * Deletions(before) - Cost(before) && u <= Reach(a, b, Cost(before), Deletions(before))
    requires Applies(op, a, b, u, v)
    ensures var d, i := Cost(before + [op]), Deletions(before + [op]);
            NextOld(op, u) - NextNew(op, v) == 2 * i - d && NextOld(op, u) <= Reach(a, b, d, i)
  {
    CountsAppend(before, op);
    StepDominatesTo(a, b, Cost(before), Deletions(before), u, v, op, Cost(before + [op]), Deletions(before + [op]));
  }

  lemma StepDominatesTo(a: seq<Line>, b: seq<Line>, d: nat, i: nat, x: nat, y: nat, op: LineOp, d': nat, i': nat)
    requires i <= d && x - y == 2 * i - d && x <= Reach(a, b, d, i) && Applies(op, a, b, x, y)
    requires d' == d + (if op.kind == Equal then 0 else 1) && i' == i + (if op.kind == Delete then 1 else 0) && i' <= d'
    ensures NextOld(op, x) - NextNew(op, y) == 2 * i' - d' && NextOld(op, x) <= Reach(a, b, d', i')
  {
    StepDominates(a, b, d, i, x, y, op);
  }

  /** The point before the last op of a path. */
  lemma PathLast(ops: seq<LineOp>, a: seq<Line>, b: seq<Line>, x: nat, y: nat) returns (u: nat, v: nat)
    requires ops != [] && IsPath(ops, a, b, 0, 0, x, y)
    ensures var op := ops[|ops| - 1];
            && IsPath(ops[..|ops| - 1], a, b, 0, 0, u, v)
            && Applies(op, a, b, u, v) && NextOld(op, u) == x && NextNew(op, v) == y
  {
    var n := |ops| - 1;
    PathSplit(ops, n, a, b, 0, 0, x, y);
    u, v := OldCount(ops[..n]), NewCount(ops[..n]);
    assert ops[n..] == [ops[n]];
  }

  // ----- Every entry of the table is a script, once pulled back inside the grid

  function Min(x: int, y: int): int {
    if x <= y then x else y
  }

  /** By how many lines a point lies beyond the grid. */
  function Excess(a: seq<Line>, b: seq<Line>, x: int, y: int): nat {
    (if x > |a| then x - |a| else 0) + (if y > |b| then y - |b| else 0)
  }

  /** `ops` is a script to `(x, y)` clipped to the grid, one edit short of `d` for every line cut off. */
  predicate Clipped(ops: seq<LineOp>, a: seq<Line>, b: seq<Line>, x: nat, y: nat, d: nat) {
    IsPath(ops, a, b, 0, 0, Min(x, |a|), Min(y, |b|)) && Cost(ops) + Excess(a, b, x, y) == d
  }

  lemma AppendOp(before: seq<LineOp>, op: LineOp, a: seq<Line>, b: seq<Line>, x: nat, y: nat)
    requires IsPath(before, a, b, 0, 0, x, y)
    requires Applies(op, a, b, x, y)
    ensures IsPath(before + [op], a, b, 0, 0, NextOld(op, x), NextNew(op, y))
    ensures Cost(before + [op]) == Cost(before) + if op.kind == Equal then 0 else 1
  {
    assert [op][1..] == [];
    PathConcat(before, [op], a, b, 0, 0, x, y, NextOld(op, x), NextNew(op, y));
  }

  /** A sideways step, clipped: an op if it stays inside the grid, nothing if it leaves. */
  lemma ClippedStep(before: seq<LineOp>, a: seq<Line>, b: seq<Line>, x: nat, y: nat, d: nat, kind: OpKind)
    returns (ops: seq<LineOp>)
    requires kind != Equal && Clipped(before, a, b, x, y, d)
    ensures var op := LineOp(kind, x, y); Clipped(ops, a, b, NextOld(op, x), NextNew(op, y), d + 1)
  {
    if (kind == Insert && y >= |b|) || (kind == Delete && x >= |a|) {
      ops := before;
    } else {
      var op := LineOp(kind, Min(x, |a|), Min(y, |b|));
      AppendOp(before, op, a, b, Min(x, |a|), Min(y, |b|));
      ops := before + [op];
    }
  }

  /** Following equal lines happens inside the grid only, and costs nothing. */
  lemma {:induction false} ClippedSnake(before: seq<LineOp>, a: seq<Line>, b: seq<Line>, x: nat, k: int, d: nat)
    returns (ops: seq<LineOp>)
    requires x >= k && Clipped(before, a, b, x, x - k, d)
    ensures var r := Snake(a, b, x, k); Clipped(ops, a, b, r, r - k, d)
    decreases |a| - x
  {
    if Matches(a, b, x, k) {
      AppendOp(before, LineOp(Equal, x, x - k), a, b, x, x - k);
      ops := ClippedSnake(before + [LineOp(Equal, x, x - k)], a, b, x + 1, k, d);
    } else {
      ops := before;
    }
  }

  /** A script to the entry point of a diagonal extends to one to its reach. */
  lemma ClippedReach(before: seq<LineOp>, a: seq<Line>, b: seq<Line>, d: nat, i: nat) returns (ops: seq<LineOp>)
    requires i <= d && Clipped(before, a, b, Entry(a, b, d, i), Entry(a, b, d, i) - (2 * i - d), d)
    ensures Clipped(ops, a, b, Reach(a, b, d, i), Reach(a, b, d, i) - (2 * i - d), d)
  {
    ops := ClippedSnake(before, a, b, Entry(a, b, d, i), 2 * i - d, d);
  }

  /** A script to the neighbour that round `d` came from extends to this entry. */
  lemma ClippedByInsertion(before: seq<LineOp>, a: seq<Line>, b: seq<Line>, d: nat, i: nat) returns (ops: seq<LineOp>)
    requires 0 < d && i < d && ByInsertion(a, b, d, i)
    requires var x := Reach(a, b, d - 1, i); Clipped(before, a, b, x, x - (2 * i - (d - 1)), d - 1)
    ensures Clipped(ops, a, b, Reach(a, b, d, i), Reach(a, b, d, i) - (2 * i - d), d)
  {
    var x := Reach(a, b, d - 1, i);
    ops := ClippedStep(before, a, b, x, x - (2 * i - (d - 1)), d - 1, Insert);
    assert Entry(a, b, d, i) == x;
    ops := ClippedReach(ops, a, b, d, i);
  }

  lemma ClippedByDeletion(before: seq<LineOp>, a: seq<Line>, b: seq<Line>, d: nat, i: nat) returns (ops: seq<LineOp>)
    requires 0 < i <= d && !ByInsertion(a, b, d, i)
    requires var x := Reach(a, b, d - 1, i - 1); Clipped(before, a, b, x, x - (2 * (i - 1) - (d - 1)), d - 1)
    ensures Clipped(ops, a, b, Reach(a, b, d, i), Reach(a, b, d, i) - (2 * i - d), d)
  {
    var x := Reach(a, b, d - 1, i - 1);
    ops := ClippedStep(before, a, b, x, x - (2 * (i - 1) - (d - 1)), d - 1, Delete);
    assert Entry(a, b, d, i) == x + 1;
    ops := ClippedReach(ops, a, b, d, i);
  }

  /**
   Each table entry, clipped to the grid, is the end of a genuine script, which
   saves one edit for every line by which the entry leaves the grid.
   */
  lemma {:induction false} ClippedScript(a: seq<Line>, b: seq<Line>, d: nat, i: nat) returns (ops: seq<LineOp>)
    requires i <= d
    ensures Clipped(ops, a, b, Reach(a, b, d, i), Reach(a, b, d, i) - (2 * i - d), d)
    decreases d
  {
    if d == 0 {
      ops := ClippedReach([], a, b, 0, 0);
    } else if ByInsertion(a, b, d, i) {
      ops := ClippedScript(a, b, d - 1, i);
      ops := ClippedByInsertion(ops, a, b, d, i);
    } else {
      ops := ClippedScript(a, b, d - 1, i - 1);
      ops := ClippedByDeletion(ops, a, b, d, i);
    }
  }

  // ----- The first stop

  /** No round before `d` passes the stop test. */
  ghost predicate NoStopBefore(a: seq<Line>, b: seq<Line>, d: nat) {
    forall d': nat, i: nat :: d' < d && i <= d' ==> !Stops(a, b, d', i)
  }

  /** A script to the far corner makes the round of its own cost stop. */
  lemma ScriptStops(ops: seq<LineOp>, a: seq<Line>, b: seq<Line>)
    requires ValidScript(ops, a, b)
    ensures Stops(a, b, Cost(ops), Deletions(ops))
  {
    Dominates(ops, a, b, |a|, |b|);
  }

  /** Rounds that did not stop rule out every script of their cost. */
  lemma NoCheaperScript(ops: seq<LineOp>, a: seq<Line>, b: seq<Line>, d: nat)
    requires NoStopBefore(a, b, d) && ValidScript(ops, a, b)
    ensures Cost(ops) >= d
  {
    ScriptStops(ops, a, b);
  }

  /** The first point to pass the stop test is the far corner, although the test admits points beyond it. */
  lemma FirstStopIsCorner(a: seq<Line>, b: seq<Line>, d: nat, i: nat)
    requires NoStopBefore(a, b, d)
    requires i <= d && Stops(a, b, d, i)
    ensures Reach(a, b, d, i) == |a| && 2 * i - d == |a| - |b|
  {
    var ops := ClippedScript(a, b, d, i);
    NoCheaperScript(ops, a, b, d);
  }

  /** Some round up to `|a| + |b|` stops. */
  lemma StopExists(a: seq<Line>, b: seq<Line>)
    ensures !NoStopBefore(a, b, |a| + |b| + 1)
  {
    if NoStopBefore(a, b, |a| + |b| + 1) {
      NoCheaperScript(LcsScript(a, b, 0, 0), a, b, |a| + |b| + 1);
    }
  }

  // ----- The algorithm

  /** `v` holds the first `bound` entries of round `d`, each at the index of its diagonal. */
  ghost predicate Holds(v: seq<int>, offset: nat, a: seq<Line>, b: seq<Line>, d: nat, bound: nat) {
    && |v| == 2 * offset + 1
    && d <= offset
    && bound <= d + 1
    && forall i: nat :: i < bound ==> v[offset + 2 * i - d] == Reach(a, b, d, i)
  }

  /** `trace[d]` is the table as round `d` found it, so it holds the round before. */
  ghost predicate IsTrace(trace: seq<seq<int>>, offset: nat, a: seq<Line>, b: seq<Line>) {
    forall d :: 0 < d < |trace| ==> Holds(trace[d], offset, a, b, d - 1, d)
  }

  ghost predicate Minimal(ops: seq<LineOp>, a: seq<Line>, b: seq<Line>) {
    forall other :: ValidScript(other, a, b) ==> Cost(ops) <= Cost(other)
  }

  /** The branch that the search takes, and that backtracking takes again, reads the previous round only. */
  lemma BranchReadsPreviousRound(v: seq<int>, offset: nat, a: seq<Line>, b: seq<Line>, d: nat, i: nat, k: int)
    requires 0 < d && i <= d && k == 2 * i - d
    requires d <= offset && Holds(v, offset, a, b, d - 1, d)
    ensures (k == 0 - d || (k != d && v[offset + k - 1] < v[offset + k + 1])) == ByInsertion(a, b, d, i)
    ensures ByInsertion(a, b, d, i) ==> v[offset + k + 1] == Reach(a, b, d - 1, i)
    ensures !ByInsertion(a, b, d, i) ==> v[offset + k - 1] == Reach(a, b, d - 1, i - 1)
  {
    if i < d {
      assert offset + k + 1 == offset + 2 * i - (d - 1);
    }
    if 0 < i {
      assert offset + k - 1 == offset + 2 * (i - 1) - (d - 1);
    }
  }

  /** Follows equal lines from `(x0, y0)`. */
  method FollowEqual(a: seq<Line>, b: seq<Line>, x0: nat, y0: nat) returns (x: nat, y: nat)
    ensures x == Snake(a, b, x0, x0 - y0) && x - y == x0 - y0
  {
    x, y := x0, y0;
    while x < |a| && y < |b| && a[x] == b[y]
      invariant x0 <= x && x - y == x0 - y0
      invariant Snake(a, b, x, x0 - y0) == Snake(a, b, x0, x0 - y0)
      decreases |a| - x
    {
      x := x + 1;
      y := y + 1;
    }
  }

  /** One inner iteration: the reach of round `d` on diagonal `k`. */
  method Extend(v: array<int>, offset: nat, a: seq<Line>, b: seq<Line>, d: nat, k: int, ghost i: nat)
    returns (x: int, y: int)
    requires i <= d && k == 2 * i - d && 0 < offset && d <= offset && v.Length == 2 * offset + 1
    requires d == 0 ==> v[offset + 1] == 0
    requires d > 0 ==> Holds(v[..], offset, a, b, d - 1, d)
    ensures x == Reach(a, b, d, i) && y == x - k
  {
    if d > 0 {
      BranchReadsPreviousRound(v[..], offset, a, b, d, i, k);
    }
    if k == 0 - d || (k != d && v[offset + k - 1] < v[offset + k + 1]) {
      x := v[offset + k + 1];
    } else {
      x := v[offset + k - 1] + 1;
    }
    assert x == Entry(a, b, d, i);
    x, y := FollowEqual(a, b, x, x - k);
  }

  /** A write on a diagonal of round `d` leaves the diagonals of the previous round alone. */
  lemma ParityFrame(v: seq<int>, offset: nat, a: seq<Line>, b: seq<Line>, d: nat, i: nat)
    requires i <= d <= offset
    requires Holds(v, offset, a, b, d, i)
    requires d > 0 ==> Holds(v, offset, a, b, d - 1, d)
    ensures var v' := v[offset + 2 * i - d := Reach(a, b, d, i)];
            && Holds(v', offset, a, b, d, i + 1)
            && (d > 0 ==> Holds(v', offset, a, b, d - 1, d))
  {
    var v' := v[offset + 2 * i - d := Reach(a, b, d, i)];
    forall j: nat | j < i + 1
      ensures v'[offset + 2 * j - d] == Reach(a, b, d, j)
    {
    }
    if d > 0 {
      forall j: nat | j < d
        ensures v'[offset + 2 * j - (d - 1)] == Reach(a, b, d - 1, j)
      {
        assert 2 * j + 1 != 2 * i;
      }
    }
  }

  /** The inner loop of round `d`: fills the round, or stops at the far corner. */
  method Round(v: array<int>, offset: nat, a: seq<Line>, b: seq<Line>, d: nat) returns (found: bool)
    requires 0 < offset && d <= offset && v.Length == 2 * offset + 1
    requires d == 0 ==> v[offset + 1] == 0
    requires d > 0 ==> Holds(v[..], offset, a, b, d - 1, d)
    requires NoStopBefore(a, b, d)
    modifies v
    ensures found ==> exists i: nat :: i <= d && 2 * i - d == |a| - |b| && Reach(a, b, d, i) == |a|
    ensures !found ==> NoStopBefore(a, b, d + 1) && Holds(v[..], offset, a, b, d, d + 1)
  {
    var k: int := 0 - d;
    ghost var i := 0;
    while k <= d
      invariant 0 <= i <= d + 1 && k == 2 * i - d
      invariant d == 0 && i == 0 ==> v[offset + 1] == 0
      invariant d > 0 ==> Holds(v[..], offset, a, b, d - 1, d)
      invariant Holds(v[..], offset, a, b, d, i)
      invariant forall j: nat :: j < i ==> !Stops(a, b, d, j)
    {
      var x, y := Extend(v, offset, a, b, d, k, i);
      ParityFrame(v[..], offset, a, b, d, i);
      ghost var after := v[..][offset + k := x];
      v[offset + k] := x;
      assert v[..] == after;
      if x >= |a| && y >= |b| {
        FirstStopIsCorner(a, b, d, i);
        return true;
      }
      k := k + 2;
      i := i + 1;
    }
    found := false;
  }

  lemma TraceAppend(trace: seq<seq<int>>, v: seq<int>, offset: nat, a: seq<Line>, b: seq<Line>)
    requires IsTrace(trace, offset, a, b) && (|trace| > 0 ==> Holds(v, offset, a, b, |trace| - 1, |trace|))
    ensures IsTrace(trace + [v], offset, a, b)
  {
  }

  /** The forward rounds, up to the first that passes the stop test. */
  method Search(a: seq<Line>, b: seq<Line>) returns (trace: seq<seq<int>>, ghost i: nat)
    requires |a| + |b| > 0
    ensures 0 < |trace| <= |a| + |b| + 1
    ensures IsTrace(trace, |a| + |b|, a, b)
    ensures NoStopBefore(a, b, |trace| - 1)
    ensures i < |trace| && 2 * i - (|trace| - 1) == |a| - |b|
    ensures Reach(a, b, |trace| - 1, i) == |a|
  {
    var maxD := |a| + |b|;
    var v := new int[2 * maxD + 1](_ => 0);
    trace, i := [], 0;
    var d := 0;
    while d <= maxD
      invariant 0 <= d <= maxD + 1 && |trace| == d
      invariant d == 0 ==> v[maxD + 1] == 0
      invariant d > 0 ==> Holds(v[..], maxD, a, b, d - 1, d)
      invariant IsTrace(trace, maxD, a, b)
      invariant NoStopBefore(a, b, d)
    {
      TraceAppend(trace, v[..], maxD, a, b);
      trace := trace + [v[..]];
      var found := Round(v, maxD, a, b, d);
      if found {
        i :| i <= d && 2 * i - d == |a| - |b| && Reach(a, b, d, i) == |a|;
        return;
      }
      d := d + 1;
    }
    StopExists(a, b);
    assert false;
  }

  /** Round `d` entered a diagonal right after the neighbour it came from, and then followed equal lines. */
  lemma EntryStops(a: seq<Line>, b: seq<Line>, d: nat, i0: nat, i: nat, k: int)
    requires 0 < d && i0 <= d && i <= d - 1 && i == (if ByInsertion(a, b, d, i0) then i0 else i0 - 1) && k == 2 * i0 - d
    ensures var prevX, stop := Reach(a, b, d - 1, i), Entry(a, b, d, i0);
            var prevY := prevX - (2 * i - (d - 1));
            && prevX <= stop <= Reach(a, b, d, i0) && 0 <= prevY <= stop - k
            && (stop == prevX || stop - k == prevY)
    ensures forall j :: Entry(a, b, d, i0) <= j < Reach(a, b, d, i0) ==> Matches(a, b, j, k)
  {
  }

  /** The op by which round `d` entered a diagonal inside the grid. */
  lemma EntryOp(a: seq<Line>, b: seq<Line>, d: nat, i0: nat, i: nat, x: nat, y: nat)
    requires 0 < d && i0 <= d && i <= d - 1 && i == (if ByInsertion(a, b, d, i0) then i0 else i0 - 1)
    requires x == Entry(a, b, d, i0) <= |a| && y == x - (2 * i0 - d) <= |b|
    ensures var prevX := Reach(a, b, d - 1, i);
            var prevY := prevX - (2 * i - (d - 1));
            var op := if x == prevX then LineOp(Insert, x, y - 1) else LineOp(Delete, x - 1, y);
            && prevX >= 0 && prevY >= 0 && Applies(op, a, b, prevX, prevY)
            && NextOld(op, prevX) == x && NextNew(op, prevY) == y
  {
  }

  /** The list back to front, as the last loop of backtracking leaves it. */
  function Reversed(ops: seq<LineOp>): (r: seq<LineOp>)
    ensures |r| == |ops|
    ensures forall i :: 0 <= i < |ops| ==> r[i] == ops[|ops| - 1 - i]
  {
    if ops == [] then [] else [ops[|ops| - 1]] + Reversed(ops[..|ops| - 1])
  }

  /** From old position `x`, after `d` edits of which `i` are deletions, an edit enters where the table does, by its branch. */
  predicate ChosenEdit(a: seq<Line>, b: seq<Line>, x: int, d: nat, i: nat, kind: OpKind)
    requires i <= d && kind != Equal
  {
    if kind == Insert then x == Entry(a, b, d + 1, i) && ByInsertion(a, b, d + 1, i)
    else x + 1 == Entry(a, b, d + 1, i + 1) && !ByInsertion(a, b, d + 1, i + 1)
  }

  /**
   From old position `x` on, after `d` edits of which `i` are deletions, every edit
   enters its diagonal where the table does, and by the same branch.
   */
  predicate Chosen(ops: seq<LineOp>, a: seq<Line>, b: seq<Line>, x: int, d: nat, i: nat)
    requires i <= d
  {
    ops == [] ||
    match ops[0].kind
    case Equal => Chosen(ops[1..], a, b, x + 1, d, i)
    case Insert => ChosenEdit(a, b, x, d, i, Insert) && Chosen(ops[1..], a, b, x, d + 1, i)
    case Delete => ChosenEdit(a, b, x, d, i, Delete) && Chosen(ops[1..], a, b, x + 1, d + 1, i + 1)
  }

  /** What `rev`, read backwards, must be: a script of the chosen edits from `(x, y)` to the far corner, `total` with those before. */
  ghost predicate Tail(rev: seq<LineOp>, a: seq<Line>, b: seq<Line>, x: nat, y: nat, d: nat, i: nat, total: nat) {
    && IsPath(Reversed(rev), a, b, x, y, |a|, |b|) && d + Cost(Reversed(rev)) == total
    && i <= d && Chosen(Reversed(rev), a, b, x, d, i)
  }

  /** Recording one more op while walking backwards puts it in front of the script. */
  lemma ReversedPrepend(rev: seq<LineOp>, op: LineOp)
    ensures Reversed(rev + [op]) == [op] + Reversed(rev) && ([op] + Reversed(rev))[1..] == Reversed(rev)
  {
    assert (rev + [op])[..|rev|] == rev;
  }

  lemma PrependEqual(rev: seq<LineOp>, a: seq<Line>, b: seq<Line>, x: nat, y: nat, d: nat, i: nat, total: nat)
    requires Tail(rev, a, b, x + 1, y + 1, d, i, total) && Applies(LineOp(Equal, x, y), a, b, x, y)
    ensures Tail(rev + [LineOp(Equal, x, y)], a, b, x, y, d, i, total)
  {
    ReversedPrepend(rev, LineOp(Equal, x, y));
  }

  /** The edit of round `d`, in front of what follows it. */
  lemma PrependEdit(rev: seq<LineOp>, op: LineOp, a: seq<Line>, b: seq<Line>, x: nat, y: nat, d: nat, i0: nat, i: nat, total: nat)
    requires 0 < d && Tail(rev, a, b, NextOld(op, x), NextNew(op, y), d, i0, total) && Applies(op, a, b, x, y)
    requires op.kind != Equal && NextOld(op, x) == Entry(a, b, d, i0)
    requires i == (if ByInsertion(a, b, d, i0) then i0 else i0 - 1) && i < d && (op.kind == Insert <==> ByInsertion(a, b, d, i0))
    ensures Tail(rev + [op], a, b, x, y, d - 1, i, total)
  {
    ReversedPrepend(rev, op);
  }

  lemma PrependEntry(rev: seq<LineOp>, op: LineOp, a: seq<Line>, b: seq<Line>, x: nat, y: nat, d: nat, i0: nat, i: nat, total: nat)
    requires 0 < d && i0 <= d && i <= d - 1 && i == (if ByInsertion(a, b, d, i0) then i0 else i0 - 1)
    requires x == Entry(a, b, d, i0) <= |a| && y == x - (2 * i0 - d) <= |b|
    requires op == if x == Reach(a, b, d - 1, i) then LineOp(Insert, x, y - 1) else LineOp(Delete, x - 1, y)
    requires Tail(rev, a, b, x, y, d, i0, total)
    ensures var prevX := Reach(a, b, d - 1, i);
            var prevY := prevX - (2 * i - (d - 1));
            prevY >= 0 && Tail(rev + [op], a, b, prevX, prevY, d - 1, i, total)
  {
    EntryOp(a, b, d, i0, i, x, y);
    PrependEdit(rev, op, a, b, Reach(a, b, d - 1, i), Reach(a, b, d - 1, i) - (2 * i - (d - 1)), d, i0, i, total);
  }

  /** Walks back along a diagonal until one side reaches its limit, recording equal lines. */
  method WalkDiagonal(rev0: seq<LineOp>, a: seq<Line>, b: seq<Line>, x0: nat, y0: nat, lowX: nat, lowY: nat,
                      ghost k: int, ghost stop: nat, ghost d: nat, ghost i: nat, ghost total: nat)
    returns (rev: seq<LineOp>, x: nat, y: nat)
    requires k == x0 - y0 && lowX <= stop <= x0 && lowY <= stop - k
    requires stop == lowX || stop - k == lowY
    requires forall j :: stop <= j < x0 ==> Matches(a, b, j, k)
    requires Tail(rev0, a, b, x0, y0, d, i, total)
    ensures x == stop && x - y == k
    ensures Tail(rev, a, b, x, y, d, i, total)
  {
    rev, x, y := rev0, x0, y0;
    while x > lowX && y > lowY
      invariant stop <= x <= x0 && x - y == k
      invariant Tail(rev, a, b, x, y, d, i, total)
    {
      assert Matches(a, b, x - 1, k);
      PrependEqual(rev, a, b, x - 1, y - 1, d, i, total);
      rev := rev + [LineOp(Equal, x - 1, y - 1)];
      x := x - 1;
      y := y - 1;
    }
  }

  /** The diagonal that round `d` came from. */
  method PreviousDiagonal(v: seq<int>, a: seq<Line>, b: seq<Line>, offset: nat, d: nat, k: int, ghost i0: nat)
    returns (prevK: int, ghost i: nat)
    requires 0 < d <= offset && Holds(v, offset, a, b, d - 1, d) && i0 <= d && k == 2 * i0 - d
    ensures i == (if ByInsertion(a, b, d, i0) then i0 else i0 - 1) && i < d && prevK == 2 * i - (d - 1)
    ensures 0 <= offset + prevK < |v| && v[offset + prevK] == Reach(a, b, d - 1, i)
  {
    BranchReadsPreviousRound(v, offset, a, b, d, i0, k);
    if k == 0 - d || (k != d && v[offset + k - 1] < v[offset + k + 1]) {
      prevK, i := k + 1, i0;
    } else {
      prevK, i := k - 1, i0 - 1;
    }
  }

  /** Undoes round `d`: from its reach back to the reach of the round before. */
  method StepBack(v: seq<int>, rev0: seq<LineOp>, a: seq<Line>, b: seq<Line>, offset: nat, d: nat, x0: nat, y0: nat,
                  ghost i0: nat, ghost total: nat)
    returns (rev: seq<LineOp>, x: nat, y: nat, ghost i: nat)
    requires 0 < d <= offset && Holds(v, offset, a, b, d - 1, d)
    requires i0 <= d && x0 == Reach(a, b, d, i0) <= |a| && y0 == x0 - (2 * i0 - d) <= |b|
    requires Tail(rev0, a, b, x0, y0, d, i0, total)
    ensures i < d && x == Reach(a, b, d - 1, i) <= |a| && y == x - (2 * i - (d - 1)) <= |b|
    ensures Tail(rev, a, b, x, y, d - 1, i, total)
  {
    var k := x0 - y0;
    var prevK;
    prevK, i := PreviousDiagonal(v, a, b, offset, d, k, i0);
    var prevX := v[offset + prevK];
    var prevY := prevX - prevK;
    EntryStops(a, b, d, i0, i, k);
    rev, x, y := WalkDiagonal(rev0, a, b, x0, y0, prevX, prevY, k, Entry(a, b, d, i0), d, i0, total);
    var op := if x == prevX then LineOp(Insert, x, y - 1) else LineOp(Delete, x - 1, y);
    PrependEntry(rev, op, a, b, x, y, d, i0, i, total);
    rev := rev + [op];
    x, y := prevX, prevY;
  }

  /** Reads a script off the recorded tables, from the far corner back to the origin. */
  method Backtrack(trace: seq<seq<int>>, a: seq<Line>, b: seq<Line>, offset: nat, ghost i0: nat) returns (ops: seq<LineOp>)
    requires 0 < |trace| <= offset + 1
    requires IsTrace(trace, offset, a, b)
    requires i0 < |trace| && 2 * i0 - (|trace| - 1) == |a| - |b|
    requires Reach(a, b, |trace| - 1, i0) == |a|
    ensures ValidScript(ops, a, b)
    ensures Cost(ops) == |trace| - 1
    ensures Chosen(ops, a, b, 0, 0, 0)
  {
    var x, y := |a|, |b|;
    var rev: seq<LineOp> := [];
    var d := |trace| - 1;
    ghost var i := i0;
    while d > 0
      invariant 0 <= i <= d < |trace|
      invariant x == Reach(a, b, d, i) <= |a| && y == x - (2 * i - d) <= |b|
      invariant Tail(rev, a, b, x, y, d, i, |trace| - 1)
    {
      rev, x, y, i := StepBack(trace[d], rev, a, b, offset, d, x, y, i, |trace| - 1);
      d := d - 1;
    }
    assert x == Snake(a, b, 0, 0);
    rev, x, y := WalkDiagonal(rev, a, b, x, y, 0, 0, 0, 0, 0, 0, |trace| - 1);
    ops := Reversed(rev);
  }

  // ----- Which of the cheapest scripts it is

  /** Another path that ends with an edit, after as many insertions and as many deletions. */
  predicate Rival(q: seq<LineOp>, p: seq<LineOp>, a: seq<Line>, b: seq<Line>) {
    && q != [] && q[|q| - 1].kind != Equal && IsPath(q, a, b, 0, 0, OldCount(q), NewCount(q))
    && Cost(q) == Cost(p) && Deletions(q) == Deletions(p)
  }

  /**
   The last edit of `p` comes as late in the texts as that of any rival; where a
   rival can insert, `p` does not delete.
   */
  ghost predicate Late(p: seq<LineOp>, a: seq<Line>, b: seq<Line>)
    requires p != []
  {
    forall q: seq<LineOp> :: Rival(q, p, a, b) ==>
      OldCount(q) < OldCount(p) || (OldCount(q) == OldCount(p) && (q[|q| - 1].kind == Insert ==> p[|p| - 1].kind == Insert))
  }

  /** Every edit of the script is made late. */
  ghost predicate EditsLate(ops: seq<LineOp>, a: seq<Line>, b: seq<Line>) {
    forall t :: 0 < t <= |ops| && ops[t - 1].kind != Equal ==> Late(ops[..t], a, b)
  }

  /** Where a chosen edit leads. */
  lemma {:induction false} ChosenAt(ops: seq<LineOp>, a: seq<Line>, b: seq<Line>, x: int, d: nat, i: nat, t: nat)
    requires i <= d && Chosen(ops, a, b, x, d, i) && t < |ops| && ops[t].kind != Equal
    ensures var n, m := d + Cost(ops[..t]), i + Deletions(ops[..t]);
            ChosenEdit(a, b, x + OldCount(ops[..t]), n, m, ops[t].kind)
    decreases t
  {
    if t > 0 {
      var d', i' := if ops[0].kind == Equal then d else d + 1, if ops[0].kind == Delete then i + 1 else i;
      ChosenAt(ops[1..], a, b, NextOld(ops[0], x), d', i', t - 1);
      assert ops[..t][1..] == ops[1..][..t - 1];
    }
  }

  /** A path that ends with an edit gets no further than the table enters, and not so far by the other branch. */
  lemma RivalBounded(q: seq<LineOp>, p: seq<LineOp>, a: seq<Line>, b: seq<Line>)
    requires Rival(q, p, a, b)
    ensures 0 < Cost(q)
    ensures OldCount(q) <= Entry(a, b, Cost(q), Deletions(q))
    ensures !ByInsertion(a, b, Cost(q), Deletions(q)) && q[|q| - 1].kind == Insert ==>
              OldCount(q) < Entry(a, b, Cost(q), Deletions(q))
  {
    var before, op := q[..|q| - 1], q[|q| - 1];
    assert q == before + [op];
    var u, v := PathLast(q, a, b, OldCount(q), NewCount(q));
    Dominates(before, a, b, u, v);
    CountsAppend(before, op);
    EditBounded(a, b, Cost(before), Deletions(before), u, op.kind, Cost(q), Deletions(q), OldCount(q));
  }

  /** An edit after `d` others enters no further than the table. */
  lemma EditBounded(a: seq<Line>, b: seq<Line>, d: nat, i: nat, u: nat, kind: OpKind, d': nat, i': nat, x: nat)
    requires i <= d && u <= Reach(a, b, d, i) && kind != Equal && d' == d + 1
    requires if kind == Insert then i' == i && x == u else i' == i + 1 && x == u + 1
    ensures x <= Entry(a, b, d', i') && (kind == Insert && !ByInsertion(a, b, d', i') ==> x < Entry(a, b, d', i'))
  {
  }

  lemma ChosenBeats(q: seq<LineOp>, p: seq<LineOp>, a: seq<Line>, b: seq<Line>, kind: OpKind, d: nat, i: nat)
    requires Rival(q, p, a, b) && kind != Equal && 0 < d == Cost(p) && i == Deletions(p) && OldCount(p) == Entry(a, b, d, i)
    requires kind == Insert <==> ByInsertion(a, b, d, i)
    ensures OldCount(q) < OldCount(p) || (OldCount(q) == OldCount(p) && (q[|q| - 1].kind == Insert ==> kind == Insert))
  {
    RivalBounded(q, p, a, b);
  }

  /** A chosen edit is late. */
  lemma ChosenIsLate(p: seq<LineOp>, a: seq<Line>, b: seq<Line>, kind: OpKind, d: nat, i: nat)
    requires p != [] && p[|p| - 1].kind == kind != Equal && 0 < d == Cost(p) && i == Deletions(p)
    requires OldCount(p) == Entry(a, b, d, i) && (kind == Insert <==> ByInsertion(a, b, d, i))
    ensures Late(p, a, b)
  {
    forall q: seq<LineOp> | Rival(q, p, a, b)
      ensures OldCount(q) < OldCount(p) || (OldCount(q) == OldCount(p) && (q[|q| - 1].kind == Insert ==> p[|p| - 1].kind == Insert))
    {
      ChosenBeats(q, p, a, b, kind, d, i);
    }
  }

  /** `p` is some ops and then a chosen edit. */
  lemma ChosenEditIsLate(p: seq<LineOp>, before: seq<LineOp>, op: LineOp, a: seq<Line>, b: seq<Line>, d: nat, i: nat, x: int)
    requires p == before + [op] && op.kind != Equal && d == Cost(before) && i == Deletions(before) && x == OldCount(before)
    requires ChosenEdit(a, b, x, d, i, op.kind)
    ensures Late(p, a, b)
  {
    CountsAppend(before, op);
    assert p[|p| - 1] == op;
    if op.kind == Insert {
      ChosenIsLate(p, a, b, Insert, d + 1, i);
    } else {
      ChosenIsLate(p, a, b, Delete, d + 1, i + 1);
    }
  }

  lemma ChosenLate(ops: seq<LineOp>, a: seq<Line>, b: seq<Line>)
    requires Chosen(ops, a, b, 0, 0, 0)
    ensures EditsLate(ops, a, b)
  {
    forall t | 0 < t <= |ops| && ops[t - 1].kind != Equal
      ensures Late(ops[..t], a, b)
    {
      assert ops[..t] == ops[..t - 1] + [ops[t - 1]];
      ChosenAt(ops, a, b, 0, 0, 0, t - 1);
      var before := ops[..t - 1];
      ChosenEditIsLate(ops[..t], before, ops[t - 1], a, b, Cost(before), Deletions(before), OldCount(before));
    }
  }

  lemma LatePrefix(ops: seq<LineOp>, a: seq<Line>, b: seq<Line>, n: nat)
    requires EditsLate(ops, a, b) && n <= |ops|
    ensures EditsLate(ops[..n], a, b)
  {
    forall t | 0 < t <= n && ops[t - 1].kind != Equal
      ensures Late(ops[..n][..t], a, b)
    {
      assert ops[..n][..t] == ops[..t];
    }
  }

  /** The path up to its last edit, which equal lines may follow. */
  lemma {:induction false} UpToLastEdit(p: seq<LineOp>, a: seq<Line>, b: seq<Line>, x: nat, y: nat) returns (t: nat)
    requires IsPath(p, a, b, 0, 0, x, y) && Cost(p) > 0
    ensures 0 < t <= |p| && p[t - 1].kind != Equal && Rival(p[..t], p, a, b)
    ensures OldCount(p[..t]) == OldCount(p) - (|p| - t)
    decreases |p|
  {
    var n := |p| - 1;
    var before, op := p[..n], p[n];
    assert p == before + [op];
    CountsAppend(before, op);
    if op.kind != Equal {
      t := |p|;
      assert p[..t] == p;
      PathEnd(p, a, b, 0, 0, x, y);
    } else {
      var u, v := PathLast(p, a, b, x, y);
      t := UpToLastEdit(before, a, b, u, v);
      assert before[..t] == p[..t];
    }
  }

  /** Nothing gets further than a late path with an edit, and nothing inserts where it deletes. */
  lemma LateBeats(p: seq<LineOp>, q: seq<LineOp>, a: seq<Line>, b: seq<Line>)
    requires p != [] && Late(p, a, b) && Rival(q, p, a, b)
    ensures OldCount(q) <= OldCount(p)
    ensures OldCount(q) == OldCount(p) && q[|q| - 1].kind == Insert ==> p[|p| - 1].kind == Insert
  {
  }

  lemma SameCounts(p: seq<LineOp>, q: seq<LineOp>, a: seq<Line>, b: seq<Line>, x: nat, y: nat)
    requires IsPath(p, a, b, 0, 0, x, y) && IsPath(q, a, b, 0, 0, x, y) && Cost(p) == Cost(q)
    ensures Deletions(p) == Deletions(q) && OldCount(p) == OldCount(q) == x && NewCount(p) == NewCount(q) == y
  {
    Dominates(p, a, b, x, y);
    Dominates(q, a, b, x, y);
    PathEnd(p, a, b, 0, 0, x, y);
    PathEnd(q, a, b, 0, 0, x, y);
  }

  /** Of two late paths to one point with one cost, the last ops are of one kind. */
  lemma SameLastKind(p: seq<LineOp>, q: seq<LineOp>, a: seq<Line>, b: seq<Line>, x: nat, y: nat)
    requires p != [] && q != [] && IsPath(p, a, b, 0, 0, x, y) && IsPath(q, a, b, 0, 0, x, y) && Cost(p) == Cost(q)
    requires EditsLate(p, a, b)
    requires q[|q| - 1].kind == Insert || (q[|q| - 1].kind == Delete && p[|p| - 1].kind == Equal)
    ensures p[|p| - 1].kind == q[|q| - 1].kind
  {
    SameCounts(p, q, a, b, x, y);
    LastEditCosts(q);
    var t := UpToLastEdit(p, a, b, x, y);
    LateBeats(p[..t], q, a, b);
  }

  lemma LastEditCosts(q: seq<LineOp>)
    requires q != [] && q[|q| - 1].kind != Equal
    ensures Cost(q) > 0
  {
    assert q == q[..|q| - 1] + [q[|q| - 1]];
    CountsAppend(q[..|q| - 1], q[|q| - 1]);
  }

  lemma SameKinds(p: seq<LineOp>, q: seq<LineOp>, a: seq<Line>, b: seq<Line>, x: nat, y: nat)
    requires p != [] && q != [] && IsPath(p, a, b, 0, 0, x, y) && IsPath(q, a, b, 0, 0, x, y) && Cost(p) == Cost(q)
    requires EditsLate(p, a, b) && EditsLate(q, a, b)
    ensures p[|p| - 1].kind == q[|q| - 1].kind
  {
    var k, l := p[|p| - 1].kind, q[|q| - 1].kind;
    if k == Insert || (k == Delete && l == Equal) {
      SameLastKind(q, p, a, b, x, y);
    } else if l == Insert || (l == Delete && k == Equal) {
      SameLastKind(p, q, a, b, x, y);
    }
  }

  /** What comes before the last op of a path. */
  lemma BeforeLast(p: seq<LineOp>, a: seq<Line>, b: seq<Line>, x: nat, y: nat) returns (u: nat, v: nat)
    requires p != [] && IsPath(p, a, b, 0, 0, x, y)
    ensures var op := p[|p| - 1];
            && IsPath(p[..|p| - 1], a, b, 0, 0, u, v)
            && Applies(op, a, b, u, v) && NextOld(op, u) == x && NextNew(op, v) == y
            && Cost(p) == Cost(p[..|p| - 1]) + if op.kind == Equal then 0 else 1
  {
    u, v := PathLast(p, a, b, x, y);
    assert p == p[..|p| - 1] + [p[|p| - 1]];
    CountsAppend(p[..|p| - 1], p[|p| - 1]);
  }

  lemma {:induction false} LatePathUnique(p: seq<LineOp>, q: seq<LineOp>, a: seq<Line>, b: seq<Line>, x: nat, y: nat)
    requires IsPath(p, a, b, 0, 0, x, y) && IsPath(q, a, b, 0, 0, x, y) && Cost(p) == Cost(q)
    requires EditsLate(p, a, b) && EditsLate(q, a, b)
    ensures p == q
    decreases |p|
  {
    if p == [] || q == [] {
      PathEnd(p, a, b, 0, 0, x, y);
      PathEnd(q, a, b, 0, 0, x, y);
      NothingCounted(p);
      NothingCounted(q);
    } else {
      var m, n := |p| - 1, |q| - 1;
      SameKinds(p, q, a, b, x, y);
      var u, v := BeforeLast(p, a, b, x, y);
      var u', v' := BeforeLast(q, a, b, x, y);
      LatePrefix(p, a, b, m);
      LatePrefix(q, a, b, n);
      LatePathUnique(p[..m], q[..n], a, b, u, v);
      SameEnds(p, q);
    }
  }

  lemma SameEnds(p: seq<LineOp>, q: seq<LineOp>)
    requires p != [] && q != [] && p[..|p| - 1] == q[..|q| - 1] && p[|p| - 1] == q[|q| - 1]
    ensures p == q
  {
    assert p == p[..|p| - 1] + [p[|p| - 1]];
    assert q == q[..|q| - 1] + [q[|q| - 1]];
  }

  /** Every op consumes a line on some side. */
  lemma NothingCounted(ops: seq<LineOp>)
    ensures OldCount(ops) == NewCount(ops) == 0 ==> ops == []
  {
  }

  /** Only one of the cheapest scripts makes its edits late. */
  lemma LateScriptUnique(ops: seq<LineOp>, other: seq<LineOp>, a: seq<Line>, b: seq<Line>)
    requires ValidScript(ops, a, b) && Minimal(ops, a, b) && EditsLate(ops, a, b)
    requires ValidScript(other, a, b) && Minimal(other, a, b) && EditsLate(other, a, b)
    ensures ops == other
  {
    LatePathUnique(ops, other, a, b, |a|, |b|);
  }

  /** Two edits, appended to a path. */
  lemma AppendTwo(before: seq<LineOp>, first: LineOp, second: LineOp, a: seq<Line>, b: seq<Line>, x: nat, y: nat)
    requires first.kind != Equal && second.kind != Equal && first.kind != second.kind
    requires IsPath(before, a, b, 0, 0, x, y) && Applies(first, a, b, x, y)
    requires Applies(second, a, b, NextOld(first, x), NextNew(first, y))
    ensures var q := before + [first] + [second];
            && IsPath(q, a, b, 0, 0, x + 1, y + 1) && OldCount(q) == x + 1 && NewCount(q) == y + 1
            && Cost(q) == Cost(before) + 2 && Deletions(q) == Deletions(before) + 1
  {
    AppendOp(before, first, a, b, x, y);
    AppendOp(before + [first], second, a, b, NextOld(first, x), NextNew(first, y));
    CountsAppend(before, first);
    CountsAppend(before + [first], second);
    PathEnd(before + [first] + [second], a, b, 0, 0, x + 1, y + 1);
  }

  /** The op at a position of a path, and the point where it applies. */
  lemma OpAt(ops: seq<LineOp>, a: seq<Line>, b: seq<Line>, x: nat, y: nat, t: nat) returns (u: nat, v: nat)
    requires IsPath(ops, a, b, 0, 0, x, y) && t < |ops|
    ensures IsPath(ops[..t], a, b, 0, 0, u, v) && Applies(ops[t], a, b, u, v)
    ensures t + 1 < |ops| ==> Applies(ops[t + 1], a, b, NextOld(ops[t], u), NextNew(ops[t], v))
  {
    PathSplit(ops, t, a, b, 0, 0, x, y);
    u, v := OldCount(ops[..t]), NewCount(ops[..t]);
    assert ops[t..][0] == ops[t];
    assert t + 1 < |ops| ==> ops[t..][1..][0] == ops[t + 1];
  }

  /** An insertion and then a deletion are not late: the insertion can come last. */
  lemma InsertionCanWait(before: seq<LineOp>, insertion: LineOp, deletion: LineOp, a: seq<Line>, b: seq<Line>, x: nat, y: nat)
    requires insertion.kind == Insert && deletion.kind == Delete && IsPath(before, a, b, 0, 0, x, y)
    requires Applies(insertion, a, b, x, y) && Applies(deletion, a, b, x, y + 1)
    ensures !Late(before + [insertion] + [deletion], a, b)
  {
    var first, second := LineOp(Delete, x, y), LineOp(Insert, x + 1, y);
    AppendTwo(before, insertion, deletion, a, b, x, y);
    AppendTwo(before, first, second, a, b, x, y);
    assert Rival(before + [first] + [second], before + [insertion] + [deletion], a, b);
  }

  /** In such a script, a deletion never comes right after an insertion: removed lines are shown before added ones. */
  lemma DeletionsFirst(ops: seq<LineOp>, a: seq<Line>, b: seq<Line>, t: nat)
    requires ValidScript(ops, a, b) && EditsLate(ops, a, b) && t + 1 < |ops| && ops[t].kind == Insert
    ensures ops[t + 1].kind != Delete
  {
    if ops[t + 1].kind == Delete {
      assert ops[..t + 2] == ops[..t] + [ops[t]] + [ops[t + 1]];
      var x, y := OpAt(ops, a, b, |a|, |b|, t);
      InsertionCanWait(ops[..t], ops[t], ops[t + 1], a, b, x, y);
    }
  }

  /** The diff: a valid script, no valid script is cheaper, and of the cheapest it is the one with late edits. */
  method MyersLineDiff(a: seq<Line>, b: seq<Line>) returns (ops: seq<LineOp>)
    ensures ValidScript(ops, a, b)
    ensures Minimal(ops, a, b)
    ensures EditsLate(ops, a, b)
    ensures Cost(ops) == |a| + |b| - 2 * Lcs(a, b, 0, 0)
  {
    if |a| + |b| == 0 {
      return [];
    }
    var trace, i := Search(a, b);
    ops := Backtrack(trace, a, b, |a| + |b|, i);
    ChosenLate(ops, a, b);
    forall other | ValidScript(other, a, b)
      ensures Cost(ops) <= Cost(other)
    {
      NoCheaperScript(other, a, b, |trace| - 1);
    }
    CostAtLeastLcs(ops, a, b, 0, 0);
    assert ValidScript(LcsScript(a, b, 0, 0), a, b);
  }
}
