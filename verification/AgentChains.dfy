/**
 What it means that a thread descends from another (internal/agentgraph/agentgraph.go):
 a chain of spawn edges of the wanted status leads from one to the other, and a
 listing names the threads by the length of their shortest chain.
 */
module AgentChains {

  import opened PatchTypes
  import opened StringOrder
  import opened AgentGraph

  /** Each thread of the chain is a child of the one before, by an edge of the wanted status. */
  predicate Chain(edges: Edges, filter: Filter, path: seq<ThreadId>) {
    forall i :: 0 < i < |path| ==> Links(edges, filter, path[i - 1], path[i])
  }

  predicate Links(edges: Edges, filter: Filter, parent: ThreadId, child: ThreadId) {
    && child in edges && edges[child].parent == parent
    && match filter
       case None => true
       case Some(status) => edges[child].status == status
  }

  /** A chain of `k` edges leads from the root to the thread. */
  ghost predicate Connects(edges: Edges, filter: Filter, root: ThreadId, t: ThreadId, k: nat) {
    exists path: seq<ThreadId> :: |path| == k + 1 && path[0] == root && path[k] == t && Chain(edges, filter, path)
  }

  lemma {:induction false} ChainFound(edges: Edges, filter: Filter, root: ThreadId, t: ThreadId, k: nat) returns (path: seq<ThreadId>)
    requires Leads(edges, filter, root, t, k)
    ensures |path| == k + 1 && path[0] == root && path[k] == t && Chain(edges, filter, path)
    decreases k
  {
    if k == 0 {
      path := [t];
    } else {
      var before := ChainFound(edges, filter, root, edges[t].parent, k - 1);
      path := before + [t];
    }
  }

  lemma {:induction false} ChainLeads(edges: Edges, filter: Filter, path: seq<ThreadId>, k: nat)
    requires k < |path| && Chain(edges, filter, path)
    ensures Leads(edges, filter, path[0], path[k], k)
    decreases k
  {
    if k > 0 {
      ChainLeads(edges, filter, path, k - 1);
      assert Links(edges, filter, path[k - 1], path[k]);
    }
  }

  /** The levels are the ends of the chains. */
  lemma LeadsIffConnects(edges: Edges, filter: Filter, root: ThreadId, t: ThreadId, k: nat)
    ensures Leads(edges, filter, root, t, k) <==> Connects(edges, filter, root, t, k)
  {
    if Leads(edges, filter, root, t, k) {
      var path := ChainFound(edges, filter, root, t, k);
    }
    if Connects(edges, filter, root, t, k) {
      var path: seq<ThreadId> :| |path| == k + 1 && path[0] == root && path[k] == t && Chain(edges, filter, path);
      ChainLeads(edges, filter, path, k);
    }
  }

  /** The length of the shortest chain with an edge. */
  ghost predicate Shortest(edges: Edges, filter: Filter, root: ThreadId, t: ThreadId, k: nat) {
    0 < k && Connects(edges, filter, root, t, k) && forall j: nat :: 0 < j < k ==> !Connects(edges, filter, root, t, j)
  }

  lemma DepthIsShortest(edges: Edges, filter: Filter, root: ThreadId, t: ThreadId, k: nat)
    ensures HasDepth(edges, filter, root, t, k) <==> Shortest(edges, filter, root, t, k)
  {
    LeadsIffConnects(edges, filter, root, t, k);
    forall j: nat
      ensures Leads(edges, filter, root, t, j) <==> Connects(edges, filter, root, t, j)
    {
      LeadsIffConnects(edges, filter, root, t, j);
    }
  }

  /** The first text is a proper prefix of the second, or has the smaller character where they first differ. */
  predicate ComesBefore(s: string, t: string) {
    exists i :: 0 <= i <= |s| && i <= |t| && s[..i] == t[..i] && DiffersAt(s, t, i)
  }

  predicate DiffersAt(s: string, t: string, i: nat)
    requires i <= |s| && i <= |t|
  {
    if i == |s| then i < |t| else i < |t| && s[i] < t[i]
  }

  /** By shorter chain, then by id. */
  ghost predicate InOrder(edges: Edges, filter: Filter, root: ThreadId, s: ThreadId, t: ThreadId) {
    exists j, k :: Shortest(edges, filter, root, s, j) && Shortest(edges, filter, root, t, k) &&
      (j < k || (j == k && ComesBefore(s, t)))
  }

  /** Exactly the threads that some chain leads to, by shortest chain and then by id. */
  ghost predicate ListsChains(edges: Edges, filter: Filter, root: ThreadId, list: seq<ThreadId>) {
    && (forall t :: t in list <==> exists k: nat :: 0 < k && Connects(edges, filter, root, t, k))
    && forall i, j :: 0 <= i < j < |list| ==> InOrder(edges, filter, root, list[i], list[j])
  }

  lemma {:induction false} LessMeans(s: string, t: string)
    requires Less(s, t)
    ensures ComesBefore(s, t)
  {
    if s == "" || s[0] < t[0] {
      assert s[..0] == t[..0] && DiffersAt(s, t, 0);
    } else {
      LessMeans(s[1..], t[1..]);
      var i :| 0 <= i <= |s[1..]| && i <= |t[1..]| && s[1..][..i] == t[1..][..i] && DiffersAt(s[1..], t[1..], i);
      assert s[..i + 1] == [s[0]] + s[1..][..i] && t[..i + 1] == [t[0]] + t[1..][..i];
      assert DiffersAt(s, t, i + 1);
    }
  }

  /** The children of a thread are the threads that it is linked to. */
  lemma ChildrenAreLinked(edges: Edges, filter: Filter, parent: ThreadId, t: ThreadId)
    ensures t in Children(edges, filter, {parent}) <==> Links(edges, filter, parent, t)
  {
  }

  /** A listing lists the chains. */
  lemma ListingListsChains(edges: Edges, filter: Filter, root: ThreadId, list: seq<ThreadId>)
    requires IsListing(edges, filter, root, list)
    ensures ListsChains(edges, filter, root, list)
  {
    forall t
      ensures t in list <==> exists k: nat :: 0 < k && Connects(edges, filter, root, t, k)
    {
      forall k: nat
        ensures Leads(edges, filter, root, t, k) <==> Connects(edges, filter, root, t, k)
      {
        LeadsIffConnects(edges, filter, root, t, k);
      }
    }
    forall i, j | 0 <= i < j < |list|
      ensures InOrder(edges, filter, root, list[i], list[j])
    {
      OrderMeans(edges, filter, root, list[i], list[j]);
    }
  }

  lemma OrderMeans(edges: Edges, filter: Filter, root: ThreadId, s: ThreadId, t: ThreadId)
    requires Before(edges, filter, root, s, t) && Reachable(edges, filter, root, s) && Reachable(edges, filter, root, t)
    ensures InOrder(edges, filter, root, s, t)
  {
    var d, e := Depth(edges, filter, root, s), Depth(edges, filter, root, t);
    DepthIsShortest(edges, filter, root, s, d);
    DepthIsShortest(edges, filter, root, t, e);
    if d == e {
      LessMeans(s, t);
    }
  }
}
