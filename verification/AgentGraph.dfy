/**
 The in-memory store of thread spawn edges (internal/agentgraph/inmemory.go),
 and the recursive query of the store it must agree with
 (internal/agentgraph/local.go).
 */
module AgentGraph {

  import opened PatchTypes
  import opened Sorting
  import opened StringOrder

  type ThreadId = string

  datatype Status = Open | Closed

  datatype Edge = Edge(parent: ThreadId, status: Status)

  /** The single incoming edge of each child. */
  type Edges = map<ThreadId, Edge>

  type Filter = Option<Status>

  predicate Passes(e: Edge, filter: Filter) {
    filter.None? || e.status == filter.value
  }

  // ----- Reachability

  /** The children of some threads along matching edges. */
  function Children(edges: Edges, filter: Filter, parents: set<ThreadId>): set<ThreadId> {
    set c | c in edges && Passes(edges[c], filter) && edges[c].parent in parents
  }

  /** The threads that `k` matching edges lead to. */
  function Level(edges: Edges, filter: Filter, root: ThreadId, k: nat): set<ThreadId> {
    if k == 0 then {root} else Children(edges, filter, Level(edges, filter, root, k - 1))
  }

  /** `k` matching edges lead from the root to `t`. */
  predicate Leads(edges: Edges, filter: Filter, root: ThreadId, t: ThreadId, k: nat) {
    t in Level(edges, filter, root, k)
  }

  /** `t` is `k` edges below the root, and no fewer; a thread is never its own descendant in zero edges. */
  ghost predicate HasDepth(edges: Edges, filter: Filter, root: ThreadId, t: ThreadId, k: nat) {
    && 0 < k && Leads(edges, filter, root, t, k)
    && forall j :: 0 < j < k ==> !Leads(edges, filter, root, t, j)
  }

  ghost predicate Reachable(edges: Edges, filter: Filter, root: ThreadId, t: ThreadId) {
    exists k: nat :: 0 < k && Leads(edges, filter, root, t, k)
  }

  lemma {:induction false} DepthExists(edges: Edges, filter: Filter, root: ThreadId, t: ThreadId, k: nat) returns (d: nat)
    requires 0 < k && Leads(edges, filter, root, t, k)
    ensures d <= k && HasDepth(edges, filter, root, t, d)
  {
    if j :| 0 < j < k && Leads(edges, filter, root, t, j) {
      d := DepthExists(edges, filter, root, t, j);
    } else {
      d := k;
    }
  }

  ghost function Depth(edges: Edges, filter: Filter, root: ThreadId, t: ThreadId): (d: nat)
    ensures Reachable(edges, filter, root, t) ==> HasDepth(edges, filter, root, t, d)
  {
    if Reachable(edges, filter, root, t) then
      var k: nat :| 0 < k && Leads(edges, filter, root, t, k);
      assert exists d: nat :: HasDepth(edges, filter, root, t, d) by {
        var d := DepthExists(edges, filter, root, t, k);
      }
      var d: nat :| HasDepth(edges, filter, root, t, d);
      d
    else 0
  }

  lemma DepthUnique(edges: Edges, filter: Filter, root: ThreadId, t: ThreadId, j: nat, k: nat)
    requires HasDepth(edges, filter, root, t, j) && HasDepth(edges, filter, root, t, k)
    ensures j == k
  {
  }

  // ----- What the listing must be

  /** By depth, then by thread id. */
  ghost predicate Before(edges: Edges, filter: Filter, root: ThreadId, s: ThreadId, t: ThreadId) {
    var d, e := Depth(edges, filter, root, s), Depth(edges, filter, root, t);
    d < e || (d == e && Less(s, t))
  }

  /** Every reachable thread, exactly once, by shortest depth and then by id. */
  ghost predicate IsListing(edges: Edges, filter: Filter, root: ThreadId, list: seq<ThreadId>) {
    && (forall t :: t in list <==> Reachable(edges, filter, root, t))
    && forall i, j :: 0 <= i < j < |list| ==> Before(edges, filter, root, list[i], list[j])
  }

  /** There is only one such listing, so the order in which a map is iterated cannot show. */
  lemma ListingUnique(edges: Edges, filter: Filter, root: ThreadId, s: seq<ThreadId>, t: seq<ThreadId>)
    requires IsListing(edges, filter, root, s) && IsListing(edges, filter, root, t)
    ensures s == t
  {
    var before := (x, y) => Before(edges, filter, root, x, y);
    forall x, y
      ensures !(before(x, y) && before(y, x))
    {
      LessTotal(x, y);
    }
    OrderedUnique(s, t, before);
  }

  // ----- Rings: the threads of one depth

  /** The threads whose shortest depth is at most `k`. */
  function Seen(edges: Edges, filter: Filter, root: ThreadId, k: nat): set<ThreadId> {
    if k == 0 then {} else Seen(edges, filter, root, k - 1) + Level(edges, filter, root, k)
  }

  /** The threads whose shortest depth is `k`; at depth 0, the root. */
  function Ring(edges: Edges, filter: Filter, root: ThreadId, k: nat): set<ThreadId> {
    if k == 0 then {root} else Level(edges, filter, root, k) - Seen(edges, filter, root, k - 1)
  }

  lemma {:induction false} SeenMeaning(edges: Edges, filter: Filter, root: ThreadId, k: nat, t: ThreadId)
    ensures t in Seen(edges, filter, root, k) <==> exists j: nat :: 0 < j <= k && Leads(edges, filter, root, t, j)
  {
    if k > 0 {
      SeenMeaning(edges, filter, root, k - 1, t);
      assert t in Level(edges, filter, root, k) <==> Leads(edges, filter, root, t, k);
    }
  }

  lemma RingMeaning(edges: Edges, filter: Filter, root: ThreadId, k: nat, t: ThreadId)
    requires 0 < k
    ensures t in Ring(edges, filter, root, k) <==> HasDepth(edges, filter, root, t, k)
  {
    SeenMeaning(edges, filter, root, k - 1, t);
  }

  /** Children of threads seen before are seen now. */
  lemma SeenClosed(edges: Edges, filter: Filter, root: ThreadId, k: nat)
    ensures Children(edges, filter, Seen(edges, filter, root, k)) <= Seen(edges, filter, root, k + 1)
  {
    forall c | c in Children(edges, filter, Seen(edges, filter, root, k))
      ensures c in Seen(edges, filter, root, k + 1)
    {
      SeenMeaning(edges, filter, root, k, edges[c].parent);
      var j: nat :| 0 < j <= k && Leads(edges, filter, root, edges[c].parent, j);
      assert Leads(edges, filter, root, c, j + 1);
      SeenMeaning(edges, filter, root, k + 1, c);
    }
  }

  /** Only the last ring has new children: the step of the breadth-first walk. */
  lemma RingStep(edges: Edges, filter: Filter, root: ThreadId, k: nat)
    ensures Ring(edges, filter, root, k + 1) == Children(edges, filter, Ring(edges, filter, root, k)) - Seen(edges, filter, root, k)
    ensures Seen(edges, filter, root, k + 1) == Seen(edges, filter, root, k) + Ring(edges, filter, root, k + 1)
  {
    var all, last := Level(edges, filter, root, k), Ring(edges, filter, root, k);
    assert Level(edges, filter, root, k + 1) == Children(edges, filter, all);
    assert Children(edges, filter, last) <= Children(edges, filter, all);
    if k > 0 {
      SeenClosed(edges, filter, root, k - 1);
      var older := Seen(edges, filter, root, k - 1);
      var settled := Children(edges, filter, older);
      forall c | c in Level(edges, filter, root, k + 1) && c !in Seen(edges, filter, root, k)
        ensures c in Children(edges, filter, Ring(edges, filter, root, k))
      {
        assert edges[c].parent in Level(edges, filter, root, k);
        assert edges[c].parent in older ==> c in settled;
      }
    }
  }

  /** Once a ring is empty, everything reachable has been seen. */
  lemma {:induction false} EmptyRingEnds(edges: Edges, filter: Filter, root: ThreadId, k: nat, j: nat)
    requires Ring(edges, filter, root, k + 1) == {} && 0 < j
    ensures Level(edges, filter, root, j) <= Seen(edges, filter, root, k)
  {
    RingStep(edges, filter, root, k);
    if j <= k {
      forall t | t in Level(edges, filter, root, j)
        ensures t in Seen(edges, filter, root, k)
      {
        assert Leads(edges, filter, root, t, j);
        SeenMeaning(edges, filter, root, k, t);
      }
    } else if j > k + 1 {
      EmptyRingEnds(edges, filter, root, k, j - 1);
      SeenClosed(edges, filter, root, k);
    }
  }

  // ----- The store

  /** The children of a parent, grouped as the walk needs them. */
  ghost predicate Groups(groups: map<ThreadId, seq<ThreadId>>, edges: Edges, filter: Filter, done: set<ThreadId>) {
    && (forall p :: p in groups ==> Distinct(groups[p]))
    && (forall p, c :: p in groups && c in groups[p] ==>
          c in done && c in edges && Passes(edges[c], filter) && edges[c].parent == p)
    && (forall c :: c in done && c in edges && Passes(edges[c], filter) ==>
          edges[c].parent in groups && c in groups[edges[c].parent])
  }

  function GroupOf(groups: map<ThreadId, seq<ThreadId>>, parent: ThreadId): seq<ThreadId> {
    if parent in groups then groups[parent] else []
  }

  /** Puts one child into its parent's group, if its edge matches. */
  method GroupChild(edges: Edges, filter: Filter, groups0: map<ThreadId, seq<ThreadId>>, child: ThreadId, ghost done: set<ThreadId>)
    returns (groups: map<ThreadId, seq<ThreadId>>)
    requires Groups(groups0, edges, filter, done) && child in edges && child !in done
    ensures Groups(groups, edges, filter, done + {child})
  {
    groups := groups0;
    var e := edges[child];
    if Passes(e, filter) {
      GroupAppend(groups, edges, filter, done, child);
      groups := groups[e.parent := GroupOf(groups, e.parent) + [child]];
    }
  }

  /** Groups the matching edges by parent, in whatever order the map yields them. */
  method GroupByParent(edges: Edges, filter: Filter) returns (groups: map<ThreadId, seq<ThreadId>>)
    ensures Groups(groups, edges, filter, edges.Keys)
  {
    groups := map[];
    var keys := edges.Keys;
    ghost var done: set<ThreadId> := {};
    while keys != {}
      invariant keys <= edges.Keys && done == edges.Keys - keys
      invariant Groups(groups, edges, filter, done)
      decreases |keys|
    {
      var child :| child in keys;
      groups := GroupChild(edges, filter, groups, child, done);
      keys, done := keys - {child}, done + {child};
    }
    assert done == edges.Keys;
  }

  lemma GroupAppend(groups: map<ThreadId, seq<ThreadId>>, edges: Edges, filter: Filter, done: set<ThreadId>, child: ThreadId)
    requires Groups(groups, edges, filter, done) && child in edges && child !in done && Passes(edges[child], filter)
    ensures var p := edges[child].parent;
            Groups(groups[p := GroupOf(groups, p) + [child]], edges, filter, done + {child})
  {
  }

  lemma GroupIsChildren(groups: map<ThreadId, seq<ThreadId>>, edges: Edges, filter: Filter, parent: ThreadId)
    requires Groups(groups, edges, filter, edges.Keys)
    ensures Distinct(GroupOf(groups, parent))
    ensures forall c :: c in GroupOf(groups, parent) <==> c in Children(edges, filter, {parent})
  {
  }

  /** The threads of one level: the children of the frontier that have not been visited, each once. */
  ghost predicate IsNewLevel(level: seq<ThreadId>, children: set<ThreadId>, visited: set<ThreadId>) {
    && Distinct(level)
    && forall t :: t in level <==> t in children && t !in visited
  }

  /** Visits the children of one parent. */
  method VisitChildren(group: seq<ThreadId>, level0: seq<ThreadId>, visited0: set<ThreadId>, ghost before: set<ThreadId>, ghost seen: set<ThreadId>)
    returns (level: seq<ThreadId>, visited: set<ThreadId>)
    requires IsNewLevel(level0, before, seen) && visited0 == seen + (set t | t in level0)
    ensures IsNewLevel(level, before + (set t | t in group), seen)
    ensures visited == seen + (set t | t in level)
  {
    level, visited := level0, visited0;
    for i := 0 to |group|
      invariant IsNewLevel(level, before + (set t | t in group[..i]), seen)
      invariant visited == seen + (set t | t in level)
    {
      var child := group[i];
      assert group[..i + 1] == group[..i] + [child];
      if child !in visited {
        visited := visited + {child};
        level := level + [child];
      }
    }
    assert group[..|group|] == group;
  }

  /** Visits one level of the walk. */
  method VisitLevel(edges: Edges, filter: Filter, groups: map<ThreadId, seq<ThreadId>>, frontier: seq<ThreadId>, visited0: set<ThreadId>)
    returns (level: seq<ThreadId>, visited: set<ThreadId>)
    requires Groups(groups, edges, filter, edges.Keys)
    ensures IsNewLevel(level, Children(edges, filter, set t | t in frontier), visited0)
    ensures visited == visited0 + (set t | t in level)
  {
    level, visited := [], visited0;
    for i := 0 to |frontier|
      invariant IsNewLevel(level, Children(edges, filter, set t | t in frontier[..i]), visited0)
      invariant visited == visited0 + (set t | t in level)
    {
      var parent := frontier[i];
      ghost var before := set t | t in frontier[..i];
      GroupIsChildren(groups, edges, filter, parent);
      level, visited := VisitChildren(GroupOf(groups, parent), level, visited, Children(edges, filter, before), visited0);
      assert frontier[..i + 1] == frontier[..i] + [parent];
      ghost var after := set t | t in frontier[..i] + [parent];
      assert after == before + {parent};
      assert Children(edges, filter, before + {parent}) ==
             Children(edges, filter, before) + (set t | t in GroupOf(groups, parent));
    }
    assert frontier[..|frontier|] == frontier;
  }

  /** What the walk has listed after `k` levels. */
  ghost predicate Listed(edges: Edges, filter: Filter, root: ThreadId, k: nat, list: seq<ThreadId>) {
    && (forall t :: t in list <==> t in Seen(edges, filter, root, k))
    && forall i, j :: 0 <= i < j < |list| ==> Before(edges, filter, root, list[i], list[j])
  }

  lemma SeenDepth(edges: Edges, filter: Filter, root: ThreadId, k: nat, t: ThreadId)
    requires t in Seen(edges, filter, root, k)
    ensures Reachable(edges, filter, root, t) && Depth(edges, filter, root, t) <= k
  {
    SeenMeaning(edges, filter, root, k, t);
    var j: nat :| 0 < j <= k && Leads(edges, filter, root, t, j);
    var d := DepthExists(edges, filter, root, t, j);
    DepthUnique(edges, filter, root, t, d, Depth(edges, filter, root, t));
  }

  lemma RingDepth(edges: Edges, filter: Filter, root: ThreadId, k: nat, t: ThreadId)
    requires 0 < k && t in Ring(edges, filter, root, k)
    ensures Reachable(edges, filter, root, t) && Depth(edges, filter, root, t) == k
  {
    RingMeaning(edges, filter, root, k, t);
    DepthUnique(edges, filter, root, t, k, Depth(edges, filter, root, t));
  }

  /** Appending the next ring, sorted, keeps the listing in order. */
  lemma ListRing(edges: Edges, filter: Filter, root: ThreadId, k: nat, list: seq<ThreadId>, ring: seq<ThreadId>)
    requires Listed(edges, filter, root, k, list)
    requires Ordered(ring, Less) && forall t :: t in ring <==> t in Ring(edges, filter, root, k + 1)
    ensures Listed(edges, filter, root, k + 1, list + ring)
  {
    RingStep(edges, filter, root, k);
    var all := list + ring;
    forall i, j | 0 <= i < j < |all|
      ensures Before(edges, filter, root, all[i], all[j])
    {
      if |list| <= j {
        assert all[j] in ring;
        RingDepth(edges, filter, root, k + 1, all[j]);
        if i < |list| {
          assert all[i] in list;
          SeenDepth(edges, filter, root, k, all[i]);
        } else {
          assert all[i] in ring;
          RingDepth(edges, filter, root, k + 1, all[i]);
        }
      }
    }
  }

  lemma ListingComplete(edges: Edges, filter: Filter, root: ThreadId, k: nat, list: seq<ThreadId>)
    requires Listed(edges, filter, root, k, list) && Ring(edges, filter, root, k + 1) == {}
    ensures IsListing(edges, filter, root, list)
  {
    forall t
      ensures t in list <==> Reachable(edges, filter, root, t)
    {
      if t in list {
        SeenDepth(edges, filter, root, k, t);
      }
      if Reachable(edges, filter, root, t) {
        var j: nat :| 0 < j && Leads(edges, filter, root, t, j);
        EmptyRingEnds(edges, filter, root, k, j);
      }
    }
  }

  /** The children of the root are the beginning of the listing. */
  lemma ChildrenArePrefix(edges: Edges, filter: Filter, root: ThreadId, list: seq<ThreadId>, children: seq<ThreadId>)
    requires IsListing(edges, filter, root, list)
    requires Ordered(children, Less) && forall t :: t in children <==> t in Children(edges, filter, {root})
    ensures children <= list
  {
    var rest := Deeper(edges, filter, root, list);
    forall t | t in children
      ensures Reachable(edges, filter, root, t) && Depth(edges, filter, root, t) == 1
    {
      ChildDepth(edges, filter, root, t);
    }
    var all := children + rest;
    forall i, j | 0 <= i < j < |all|
      ensures Before(edges, filter, root, all[i], all[j])
    {
      assert i < |children| ==> all[i] in children;
      assert j < |children| ==> all[j] in children;
      if |children| <= j {
        assert all[j] in rest;
      }
    }
    forall t
      ensures t in all <==> Reachable(edges, filter, root, t)
    {
      if t in list && t !in rest {
        ChildDepth(edges, filter, root, t);
      }
    }
    ListingUnique(edges, filter, root, list, all);
  }

  lemma ChildDepth(edges: Edges, filter: Filter, root: ThreadId, t: ThreadId)
    ensures t in Children(edges, filter, {root}) <==> Reachable(edges, filter, root, t) && Depth(edges, filter, root, t) == 1
  {
    assert Level(edges, filter, root, 1) == Children(edges, filter, {root}) by {
      assert Level(edges, filter, root, 0) == {root};
    }
    if t in Children(edges, filter, {root}) {
      assert Leads(edges, filter, root, t, 1);
      DepthUnique(edges, filter, root, t, 1, Depth(edges, filter, root, t));
    }
  }

  /** The part of the listing below depth 1, in order. */
  lemma Deeper(edges: Edges, filter: Filter, root: ThreadId, list: seq<ThreadId>) returns (rest: seq<ThreadId>)
    requires forall i, j :: 0 <= i < j < |list| ==> Before(edges, filter, root, list[i], list[j])
    ensures forall t :: t in rest <==> t in list && Depth(edges, filter, root, t) > 1
    ensures forall i, j :: 0 <= i < j < |rest| ==> Before(edges, filter, root, rest[i], rest[j])
  {
    rest := [];
    for n := 0 to |list|
      invariant forall t :: t in rest <==> t in list[..n] && Depth(edges, filter, root, t) > 1
      invariant forall i, j :: 0 <= i < j < |rest| ==> Before(edges, filter, root, rest[i], rest[j])
    {
      if Depth(edges, filter, root, list[n]) > 1 {
        forall i | 0 <= i < |rest|
          ensures Before(edges, filter, root, rest[i], list[n])
        {
          assert rest[i] in list[..n];
        }
        rest := rest + [list[n]];
      }
      assert list[..n + 1] == list[..n] + [list[n]];
    }
    assert list[..|list|] == list;
  }

  /** The state of the walk after `k` levels: the last ring is the frontier. */
  ghost predicate Walked(edges: Edges, filter: Filter, root: ThreadId, k: nat,
                         list: seq<ThreadId>, visited: set<ThreadId>, frontier: seq<ThreadId>)
  {
    && visited == Seen(edges, filter, root, k) && visited <= edges.Keys
    && (set t | t in frontier) == Ring(edges, filter, root, k)
    && Listed(edges, filter, root, k, list)
  }

  /** One level of the walk; the new frontier is new to the visited threads. */
  method WalkLevel(edges: Edges, filter: Filter, groups: map<ThreadId, seq<ThreadId>>, ghost root: ThreadId, ghost k: nat,
                   list0: seq<ThreadId>, visited0: set<ThreadId>, frontier0: seq<ThreadId>)
    returns (list: seq<ThreadId>, visited: set<ThreadId>, frontier: seq<ThreadId>)
    requires Groups(groups, edges, filter, edges.Keys)
    requires Walked(edges, filter, root, k, list0, visited0, frontier0)
    ensures Walked(edges, filter, root, k + 1, list, visited, frontier)
    ensures visited == visited0 + (set t | t in frontier)
    ensures forall t :: t in frontier ==> t !in visited0
  {
    frontier, visited := VisitLevel(edges, filter, groups, frontier0, visited0);
    RingStep(edges, filter, root, k);
    assert (set t | t in frontier) == Ring(edges, filter, root, k + 1);
    LessIsOrder();
    SortOrders(frontier, Less);
    ListRing(edges, filter, root, k, list0, Sort(frontier, Less));
    list := list0 + Sort(frontier, Less);
  }

  class InMemoryAgentGraphStore {
    var edges: Edges

    constructor ()
      ensures edges == map[]
    {
      edges := map[];
    }

    method UpsertThreadSpawnEdge(parent: ThreadId, child: ThreadId, status: Status)
      modifies this
      ensures edges == old(edges)[child := Edge(parent, status)]
    {
      edges := edges[child := Edge(parent, status)];
    }

    /** A missing child is left missing. */
    method SetThreadSpawnEdgeStatus(child: ThreadId, status: Status)
      modifies this
      ensures edges.Keys == old(edges).Keys
      ensures forall c :: c in edges ==> edges[c].parent == old(edges)[c].parent
      ensures forall c :: c in edges ==> edges[c].status == if c == child then status else old(edges)[c].status
    {
      if child in edges {
        edges := edges[child := edges[child].(status := status)];
      }
    }

    /** The direct children, by id. */
    method ListThreadSpawnChildren(parent: ThreadId, filter: Filter) returns (list: seq<ThreadId>)
      ensures Ordered(list, Less)
      ensures forall t :: t in list <==> t in Children(edges, filter, {parent})
    {
      var children: seq<ThreadId> := [];
      var keys := edges.Keys;
      while keys != {}
        invariant keys <= edges.Keys && Distinct(children)
        invariant forall t :: t in children <==> t in Children(edges, filter, {parent}) && t !in keys
        decreases |keys|
      {
        var child :| child in keys;
        var e := edges[child];
        keys := keys - {child};
        if e.parent == parent && Passes(e, filter) {
          children := children + [child];
        }
      }
      LessIsOrder();
      SortOrders(children, Less);
      list := Sort(children, Less);
    }

    /**
     The breadth-first listing of descendants. It terminates on every edge map,
     cycles included, because every level visits threads not visited before.
     */
    method ListThreadSpawnDescendants(root: ThreadId, filter: Filter) returns (list: seq<ThreadId>)
      ensures IsListing(edges, filter, root, list)
    {
      var groups := GroupByParent(edges, filter);
      list := [];
      var visited: set<ThreadId> := {};
      var frontier := [root];
      ghost var k := 0;
      while |frontier| > 0
        invariant Walked(edges, filter, root, k, list, visited, frontier)
        decreases edges.Keys - visited, |frontier|
      {
        ghost var before := visited;
        list, visited, frontier := WalkLevel(edges, filter, groups, root, k, list, visited, frontier);
        k := k + 1;
        assert |frontier| > 0 ==> frontier[0] in edges.Keys - before && frontier[0] in visited;
      }
      RingStep(edges, filter, root, k);
      ListingComplete(edges, filter, root, k, list);
    }
  }

  // ----- The recursive query of the other store

  /** A row of the recursive query: a child and the depth at which a derivation reached it. */
  datatype Row = Row(id: ThreadId, depth: nat)

  /**
   How many rows `UNION ALL` derives for a child at a depth: one for an edge from
   the root, and then one for every row of its parent one level up.
   */
  function RowCount(edges: Edges, filter: Filter, root: ThreadId, t: ThreadId, depth: nat): nat
    decreases depth
  {
    if depth == 0 || t !in edges || !Passes(edges[t], filter) then 0
    else if depth == 1 then (if edges[t].parent == root then 1 else 0)
    else RowCount(edges, filter, root, edges[t].parent, depth - 1)
  }

  /** `ORDER BY depth, child_thread_id`. */
  predicate RowLeq(r: Row, q: Row) {
    r.depth < q.depth || (r.depth == q.depth && Leq(r.id, q.id))
  }

  /** A finite answer of the query: every derived row as often as it is derived, in order. */
  ghost predicate IsAnswer(edges: Edges, filter: Filter, root: ThreadId, rows: seq<Row>) {
    && (forall r: Row :: multiset(rows)[r] == RowCount(edges, filter, root, r.id, r.depth))
    && forall i, j :: 0 <= i < j < |rows| ==> RowLeq(rows[i], rows[j])
  }

  function Ids(rows: seq<Row>): (ids: seq<ThreadId>)
    ensures |ids| == |rows|
    ensures forall i :: 0 <= i < |rows| ==> ids[i] == rows[i].id
  {
    if rows == [] then [] else [rows[0].id] + Ids(rows[1..])
  }

  lemma {:induction false} RowsAreLevels(edges: Edges, filter: Filter, root: ThreadId, t: ThreadId, k: nat)
    requires 0 < k
    ensures RowCount(edges, filter, root, t, k) == if Leads(edges, filter, root, t, k) then 1 else 0
    decreases k
  {
    if k == 1 {
      assert Level(edges, filter, root, 0) == {root};
    } else if t in edges {
      RowsAreLevels(edges, filter, root, edges[t].parent, k - 1);
    }
  }

  /** A thread on two levels puts the root below itself, because every thread has one parent. */
  lemma {:induction false} TwoLevelsMakeCycle(edges: Edges, filter: Filter, root: ThreadId, t: ThreadId, j: nat, d: nat)
    requires 0 < d && Leads(edges, filter, root, t, j) && Leads(edges, filter, root, t, j + d)
    ensures Leads(edges, filter, root, root, d)
    decreases j
  {
    if j > 0 {
      TwoLevelsMakeCycle(edges, filter, root, edges[t].parent, j - 1, d);
    }
  }

  /** What lies below the root in `k` edges lies below it again after a way around the cycle. */
  lemma {:induction false} CycleRepeats(edges: Edges, filter: Filter, root: ThreadId, t: ThreadId, d: nat, k: nat)
    requires Leads(edges, filter, root, root, d) && Leads(edges, filter, root, t, k)
    ensures Leads(edges, filter, root, t, k + d)
    decreases k
  {
    if k > 0 {
      CycleRepeats(edges, filter, root, edges[t].parent, d, k - 1);
    }
  }

  lemma {:induction false} CycleIsEndless(edges: Edges, filter: Filter, root: ThreadId, d: nat, n: nat) returns (k: nat)
    requires 0 < d && Leads(edges, filter, root, root, d)
    ensures n < k && Leads(edges, filter, root, root, k)
  {
    if n == 0 {
      k := d;
    } else {
      k := CycleIsEndless(edges, filter, root, d, n - 1);
      CycleRepeats(edges, filter, root, root, d, k);
      k := k + d;
    }
  }

  /** On a cycle through the root, the query derives rows without end. */
  lemma NoAnswerOnCycle(edges: Edges, filter: Filter, root: ThreadId, rows: seq<Row>)
    requires Reachable(edges, filter, root, root)
    ensures !IsAnswer(edges, filter, root, rows)
  {
    var d: nat :| 0 < d && Leads(edges, filter, root, root, d);
    var n := DeepestRow(rows);
    var k := CycleIsEndless(edges, filter, root, d, n);
    RowsAreLevels(edges, filter, root, root, k);
    var r := Row(root, k);
    assert r in rows <==> multiset(rows)[r] > 0;
  }

  lemma {:induction false} DeepestRow(rows: seq<Row>) returns (n: nat)
    ensures forall r :: r in rows ==> r.depth <= n
  {
    if rows == [] {
      n := 0;
    } else {
      n := DeepestRow(rows[1..]);
      n := if rows[0].depth > n then rows[0].depth else n;
      assert rows == [rows[0]] + rows[1..];
    }
  }

  /** Without such a cycle, every reachable thread lies on the level of its depth only. */
  lemma OneLevelOnly(edges: Edges, filter: Filter, root: ThreadId, t: ThreadId, k: nat)
    requires !Reachable(edges, filter, root, root) && 0 < k
    ensures Leads(edges, filter, root, t, k) <==> Reachable(edges, filter, root, t) && Depth(edges, filter, root, t) == k
  {
    if Leads(edges, filter, root, t, k) {
      var d := Depth(edges, filter, root, t);
      if d < k {
        TwoLevelsMakeCycle(edges, filter, root, t, d, k - d);
      }
    }
  }

  /** The rows of an answer are the listed threads, each at its depth. */
  lemma AnswerRows(edges: Edges, filter: Filter, root: ThreadId, rows: seq<Row>, r: Row)
    requires !Reachable(edges, filter, root, root) && IsAnswer(edges, filter, root, rows)
    ensures r in rows <==> Reachable(edges, filter, root, r.id) && Depth(edges, filter, root, r.id) == r.depth
    ensures multiset(rows)[r] <= 1
  {
    assert r in rows <==> multiset(rows)[r] > 0;
    if r.depth > 0 {
      RowsAreLevels(edges, filter, root, r.id, r.depth);
      OneLevelOnly(edges, filter, root, r.id, r.depth);
    }
  }

  lemma {:induction false} RepeatedRow(rows: seq<Row>, i: nat, j: nat)
    requires i < j < |rows| && rows[i] == rows[j]
    ensures multiset(rows)[rows[i]] >= 2
  {
    assert rows == rows[..j] + rows[j..];
    assert rows[i] in rows[..j] && rows[i] in rows[j..];
    assert multiset(rows) == multiset(rows[..j]) + multiset(rows[j..]);
  }

  /** Any answer of the query, read as ids, is the breadth-first listing. */
  lemma AnswerIsListing(edges: Edges, filter: Filter, root: ThreadId, rows: seq<Row>)
    requires IsAnswer(edges, filter, root, rows)
    ensures IsListing(edges, filter, root, Ids(rows))
  {
    if Reachable(edges, filter, root, root) {
      NoAnswerOnCycle(edges, filter, root, rows);
    } else {
      var ids := Ids(rows);
      forall t
        ensures t in ids <==> Reachable(edges, filter, root, t)
      {
        AnswerRows(edges, filter, root, rows, Row(t, Depth(edges, filter, root, t)));
        if t in ids {
          var i :| 0 <= i < |ids| && ids[i] == t;
          AnswerRows(edges, filter, root, rows, rows[i]);
        }
        if Row(t, Depth(edges, filter, root, t)) in rows {
          var i :| 0 <= i < |rows| && rows[i] == Row(t, Depth(edges, filter, root, t));
          assert ids[i] == t;
        }
      }
      forall i, j | 0 <= i < j < |ids|
        ensures Before(edges, filter, root, ids[i], ids[j])
      {
        AnswerRows(edges, filter, root, rows, rows[i]);
        AnswerRows(edges, filter, root, rows, rows[j]);
        if rows[i] == rows[j] {
          RepeatedRow(rows, i, j);
        }
        assert RowLeq(rows[i], rows[j]);
      }
    }
  }

  /** The listing, with depths, answers the query. */
  ghost function RowsOf(edges: Edges, filter: Filter, root: ThreadId, list: seq<ThreadId>): (rows: seq<Row>)
    ensures |rows| == |list|
    ensures forall i :: 0 <= i < |list| ==> rows[i] == Row(list[i], Depth(edges, filter, root, list[i]))
  {
    if list == [] then [] else [Row(list[0], Depth(edges, filter, root, list[0]))] + RowsOf(edges, filter, root, list[1..])
  }

  lemma ListingIsAnswer(edges: Edges, filter: Filter, root: ThreadId, list: seq<ThreadId>)
    requires IsListing(edges, filter, root, list) && !Reachable(edges, filter, root, root)
    ensures IsAnswer(edges, filter, root, RowsOf(edges, filter, root, list))
  {
    var rows := RowsOf(edges, filter, root, list);
    forall i, j | 0 <= i < j < |rows|
      ensures rows[i] != rows[j] && RowLeq(rows[i], rows[j])
    {
      assert Before(edges, filter, root, list[i], list[j]);
    }
    forall r: Row
      ensures multiset(rows)[r] == RowCount(edges, filter, root, r.id, r.depth)
    {
      DistinctRows(rows, r);
      RowsListed(edges, filter, root, list, rows, r);
      RowsCounted(edges, filter, root, r);
    }
  }

  /** The rows of a listing are the reachable threads at their depths. */
  lemma RowsListed(edges: Edges, filter: Filter, root: ThreadId, list: seq<ThreadId>, rows: seq<Row>, r: Row)
    requires IsListing(edges, filter, root, list) && |rows| == |list|
    requires forall i :: 0 <= i < |list| ==> rows[i] == Row(list[i], Depth(edges, filter, root, list[i]))
    ensures r in rows <==> Reachable(edges, filter, root, r.id) && Depth(edges, filter, root, r.id) == r.depth
  {
    if r in rows {
      var i :| 0 <= i < |rows| && rows[i] == r;
      assert list[i] in list;
    }
    if Reachable(edges, filter, root, r.id) && Depth(edges, filter, root, r.id) == r.depth {
      var i :| 0 <= i < |list| && list[i] == r.id;
      assert rows[i] == r;
    }
  }

  /** The query derives the same rows, each once. */
  lemma RowsCounted(edges: Edges, filter: Filter, root: ThreadId, r: Row)
    requires !Reachable(edges, filter, root, root)
    ensures RowCount(edges, filter, root, r.id, r.depth) ==
            if Reachable(edges, filter, root, r.id) && Depth(edges, filter, root, r.id) == r.depth then 1 else 0
  {
    if r.depth > 0 {
      RowsAreLevels(edges, filter, root, r.id, r.depth);
      OneLevelOnly(edges, filter, root, r.id, r.depth);
    }
  }

  lemma {:induction false} DistinctRows(rows: seq<Row>, r: Row)
    requires forall i, j :: 0 <= i < j < |rows| ==> rows[i] != rows[j]
    ensures multiset(rows)[r] == if r in rows then 1 else 0
  {
    if rows != [] {
      var rest := rows[1..];
      assert forall i :: 0 <= i < |rest| ==> rest[i] == rows[i + 1];
      DistinctRows(rest, r);
      assert rows == [rows[0]] + rest;
      assert multiset(rows) == multiset{rows[0]} + multiset(rest);
    }
  }

  /**
   The stores agree: the query has a finite answer exactly when the root is not
   its own descendant, and then its ids are the in-memory listing.
   */
  lemma StoresAgree(edges: Edges, filter: Filter, root: ThreadId, list: seq<ThreadId>)
    requires IsListing(edges, filter, root, list)
    ensures (exists rows :: IsAnswer(edges, filter, root, rows)) <==> !Reachable(edges, filter, root, root)
    ensures forall rows :: IsAnswer(edges, filter, root, rows) ==> Ids(rows) == list
  {
    if Reachable(edges, filter, root, root) {
      forall rows
        ensures !IsAnswer(edges, filter, root, rows)
      {
        NoAnswerOnCycle(edges, filter, root, rows);
      }
    } else {
      ListingIsAnswer(edges, filter, root, list);
    }
    forall rows | IsAnswer(edges, filter, root, rows)
      ensures Ids(rows) == list
    {
      AnswerIsListing(edges, filter, root, rows);
      ListingUnique(edges, filter, root, Ids(rows), list);
    }
  }
}
