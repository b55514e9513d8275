/**
 * What the layout pass of components/tree/family-tree-chart.tsx guarantees about its
 * output: the lane of isolated nodes, how often each node is emitted, one fresh object per
 * emitted node, one link per placed child, and the packing of the root trees.
 */
module ChartLayoutProps {
  import opened TreeGraph
  import opened TreeLayout
  import opened TreeLayoutProps
  import opened ChartLayout

  /** Every parentless id of `ks` is kept by `Roots`. */
  lemma {:induction false} RootsComplete<K, D>(g: Graph<K, D>, ks: seq<K>, i: nat)
    requires HasLists(g, ks) && i < |ks| && IsRoot(g, ks[i])
    ensures ks[i] in Roots(g, ks)
    decreases |ks|
  {
    if i < |ks| - 1 {
      RootsComplete(g, ks[..|ks| - 1], i);
    }
  }

  /** Every id of `ks` with a child or a parent is kept by `WithRelationships`. */
  lemma {:induction false} WithRelationshipsComplete<K, D>(g: Graph<K, D>, ks: seq<K>, i: nat)
    requires HasLists(g, ks) && i < |ks| && HasRelationships(g, ks[i])
    ensures ks[i] in WithRelationships(g, ks)
    decreases |ks|
  {
    if i < |ks| - 1 {
      WithRelationshipsComplete(g, ks[..|ks| - 1], i);
    }
  }

  /** Every id of `ks` with neither children nor parents is kept by `Isolated`. */
  lemma {:induction false} IsolatedComplete<K, D>(g: Graph<K, D>, ks: seq<K>, i: nat)
    requires HasLists(g, ks) && i < |ks| && IsIsolated(g, ks[i])
    ensures ks[i] in Isolated(g, ks)
    decreases |ks|
  {
    if i < |ks| - 1 {
      IsolatedComplete(g, ks[..|ks| - 1], i);
    }
  }

  /** Every key without a parent and with a child is a tree root. */
  lemma TreeRootsComplete<K, D>(g: Graph<K, D>, i: nat)
    requires HasLists(g, g.keys) && i < |g.keys|
    requires |g.parents[g.keys[i]]| == 0 && |g.children[g.keys[i]]| > 0
    ensures g.keys[i] in TreeRoots(g)
  {
    RootsComplete(g, g.keys, i);
    var roots := Roots(g, g.keys);
    var j :| 0 <= j < |roots| && roots[j] == g.keys[i];
    WithRelationshipsComplete(g, roots, j);
  }

  /** The `j`-th entry of `rootWidths` is the subtree width of the `j`-th root. */
  lemma {:induction false} RowWidthsAt<K, D>(g: Graph<K, D>, rank: map<K, nat>, d: Dims, ids: seq<K>, bound: nat, n: nat, j: nat)
    requires Ranked(g, rank) && RowBelow(rank, ids, bound) && j < n <= |ids|
    ensures RowWidths(g, rank, d, ids, bound, n)[j] == SubtreeWidth(g, rank, d, ids[j])
    decreases n
  {
    if j < n - 1 {
      RowWidthsAt(g, rank, d, ids, bound, n - 1, j);
    }
  }

  /** The `i`-th isolated node: in the lane's column, `i` steps below the top. */
  lemma {:induction false} LaneAt<K>(d: Dims, iso: seq<K>, ref: nat, i: nat)
    requires i < |iso|
    ensures Lane(d, iso, ref)[i] == TreeNode(ref + i, iso[i], LaneX(d), LaneY(d, i), d.nodeWidth)
    decreases |iso|
  {
    var front := iso[..|iso| - 1];
    if i < |iso| - 1 {
      LaneAt(d, front, ref, i);
      assert front[i] == iso[i];
    }
  }

  /** The lane for one more isolated node: the node `i` steps down is added at its end. */
  lemma LaneSnoc<K>(d: Dims, iso: seq<K>, ref: nat, i: nat)
    requires i < |iso|
    ensures Lane(d, iso[..i + 1], ref)
         == Lane(d, iso[..i], ref) + [TreeNode(ref + i, iso[i], LaneX(d), LaneY(d, i), d.nodeWidth)]
  {
    assert iso[..i + 1][..i] == iso[..i];
  }

  /** The lane holds one node per occurrence of an id in the list it is built from. */
  lemma {:induction false} LaneCount<K>(d: Dims, iso: seq<K>, ref: nat, v: K)
    ensures CountId(Lane(d, iso, ref), v) == multiset(iso)[v]
    decreases |iso|
  {
    if iso != [] {
      var front := iso[..|iso| - 1];
      LaneCount(d, front, ref, v);
      assert iso == front + [iso[|iso| - 1]];
      var l := Lane(d, iso, ref);
      assert l[..|l| - 1] == Lane(d, front, ref);
    }
  }

  /** The lane's serials are `ref` onwards, one per node. */
  lemma LaneRefs<K>(d: Dims, iso: seq<K>, ref: nat)
    ensures RefsIn(Lane(d, iso, ref), ref, ref + |iso|) && DistinctRefs(Lane(d, iso, ref))
  {
    forall i | 0 <= i < |iso|
      ensures Lane(d, iso, ref)[i].ref == ref + i
    {
      LaneAt(d, iso, ref, i);
    }
  }

  /** Filtering a list without repeats gives a list without repeats. */
  lemma {:induction false} IsolatedNoDup<K, D>(g: Graph<K, D>, ks: seq<K>)
    requires HasLists(g, ks) && NoDup(ks)
    ensures NoDup(Isolated(g, ks))
    decreases |ks|
  {
    if ks != [] {
      var front := ks[..|ks| - 1];
      assert NoDup(front);
      IsolatedNoDup(g, front);
      var r := Isolated(g, front);
      assert ks[|ks| - 1] !in front;
      assert forall i | 0 <= i < |r| :: r[i] in front;
    }
  }

  lemma {:induction false} NoDupCount<K>(s: seq<K>, v: K)
    requires NoDup(s) && v in s
    ensures multiset(s)[v] == 1
    decreases |s|
  {
    var front := s[..|s| - 1];
    assert s == front + [s[|s| - 1]];
    assert NoDup(front);
    if v in front {
      NoDupCount(front, v);
    } else {
      assert multiset(front)[v] == 0;
    }
  }

  /** The first `|Isolated(g, g.keys)|` entries of `allNodes` are the lane, in map order. */
  lemma LayoutLane<K, D>(g: Graph<K, D>, rank: map<K, nat>, d: Dims, i: nat)
    requires Acyclic(g, rank) && i < |Isolated(g, g.keys)|
    ensures var iso := Isolated(g, g.keys);
      Layout(g, rank, d).0[i] == TreeNode(i, iso[i], LaneX(d), LaneY(d, i), d.nodeWidth)
  {
    LaneAt(d, Isolated(g, g.keys), 0, i);
  }

  /**
   * How often the pass emits a node for `v`: once if it is isolated, plus once per path to
   * it from a tree root. Isolated nodes are never laid out as trees, a node with several
   * parents is emitted once under each, and a node no tree root reaches (a node on a cycle
   * of parents, say) is never emitted.
   */
  lemma LayoutCount<K, D>(g: Graph<K, D>, rank: map<K, nat>, d: Dims, v: K)
    requires Acyclic(g, rank)
    ensures var roots := TreeRoots(g);
      CountId(Layout(g, rank, d).0, v)
      == multiset(Isolated(g, g.keys))[v] + RowPathCount(g, rank, roots, RankBound(rank, roots), |roots|, v)
  {
    var roots := TreeRoots(g);
    var iso := Isolated(g, g.keys);
    CountIdConcat(Lane(d, iso, 0), RowNodes(Forest(g, rank, d)), v);
    LaneCount(d, iso, 0, v);
    RowCount(g, rank, d, roots, RankBound(rank, roots), |roots|, ForestLeft(g, rank, d), TopY, |iso|, v);
  }

  /** In the adjacency the chart builds, an isolated node is emitted exactly once, in the lane. */
  lemma IsolatedOnce<K, D>(g: Graph<K, D>, rank: map<K, nat>, d: Dims, v: K)
    requires Acyclic(g, rank) && WellFormed(g)
    requires v in Isolated(g, g.keys)
    ensures CountId(Layout(g, rank, d).0, v) == 1
  {
    var roots := TreeRoots(g);
    var iso := Isolated(g, g.keys);
    LayoutCount(g, rank, d, v);
    IsolatedNoDup(g, g.keys);
    NoDupCount(iso, v);
    assert v in g.parents && |g.parents[v]| == 0 && |g.children[v]| == 0;
    forall k | k in rank && k in g.children
      ensures v !in g.children[k]
    {
      assert multiset(g.children[k])[v] == multiset(g.parents[v])[k];
    }
    RowPathCountToOrphan(g, rank, roots, RankBound(rank, roots), |roots|, v);
  }

  /** Every entry of `allNodes` is a distinct object; their serials are 0 up to the count. */
  lemma LayoutRefs<K, D>(g: Graph<K, D>, rank: map<K, nat>, d: Dims)
    requires Acyclic(g, rank)
    ensures var ns := Layout(g, rank, d).0;
      RefsIn(ns, 0, |ns|) && DistinctRefs(ns)
  {
    var roots := TreeRoots(g);
    var iso := Isolated(g, g.keys);
    var ts := Forest(g, rank, d);
    LaneRefs(d, iso, 0);
    RowRefs(g, rank, d, roots, RankBound(rank, roots), |roots|, ForestLeft(g, rank, d), TopY, |iso|);
    var next := PlaceRow(g, rank, d, roots, RankBound(rank, roots), |roots|, ForestLeft(g, rank, d), TopY, |iso|).1;
    DistinctRefsConcat(Lane(d, iso, 0), RowNodes(ts), 0, next, 0, |iso|, |iso|, next);
  }

  /** What the pass has appended after one more tree of the forest. */
  lemma ForestAppend<K>(nodes: seq<TreeNode<K>>, links: seq<Edge>, front: seq<Placed<K>>, last: Placed<K>)
    ensures nodes + RowNodes(front) + Nodes(last) == nodes + RowNodes(front + [last])
    ensures links + ForestLinks(front) + Links(last) == links + ForestLinks(front + [last])
  {
    assert (front + [last])[..|front|] == front;
  }

  lemma {:induction false} ForestLinksCount<K>(ts: seq<Placed<K>>)
    ensures |ForestLinks(ts)| + |ts| == |RowNodes(ts)|
    decreases |ts|
  {
    if ts != [] {
      ForestLinksCount(ts[..|ts| - 1]);
      LinksPerChild(ts[|ts| - 1]);
    }
  }

  /** One link per placed child: every emitted tree node except the roots has one link to it. */
  lemma LayoutLinksCount<K, D>(g: Graph<K, D>, rank: map<K, nat>, d: Dims)
    requires Acyclic(g, rank)
    ensures |Layout(g, rank, d).1| + |TreeRoots(g)| + |Isolated(g, g.keys)| == |Layout(g, rank, d).0|
  {
    ForestLinksCount(Forest(g, rank, d));
  }

  /**
   * The root trees are packed like the children of one node: side by side in slots as wide
   * as their subtrees, starting at `mainTreeStartX`, every node inside the band of width
   * `totalRootWidth` centred at `isolatedColumnWidth + 50`, every root at `TopY`.
   */
  lemma ForestPacked<K, D>(g: Graph<K, D>, rank: map<K, nat>, d: Dims)
    requires Acyclic(g, rank) && Footprint(d) >= 0.0
    ensures var ts := Forest(g, rank, d);
      var total := TotalRootWidth(g, rank, d);
      var f := Footprint(d);
      && TidyRow(ts, ForestLeft(g, rank, d), TopY, f, d.levelHeight)
      && SlotsWidth(ts) == total
      && WithinX(RowNodes(ts), LaneWidth(d) + 50.0 - total / 2.0 + f / 2.0, LaneWidth(d) + 50.0 + total / 2.0 - f / 2.0)
      && forall i | 0 <= i < |ts| :: ts[i].node.id == TreeRoots(g)[i] && ts[i].node.y == TopY
  {
    var roots := TreeRoots(g);
    var iso := Isolated(g, g.keys);
    RowTidy(g, rank, d, roots, RankBound(rank, roots), |roots|, ForestLeft(g, rank, d), TopY, |iso|);
    RowSlots(g, rank, d, roots, RankBound(rank, roots), |roots|, ForestLeft(g, rank, d), TopY, |iso|);
    RowIds(g, rank, d, roots, RankBound(rank, roots), |roots|, ForestLeft(g, rank, d), TopY, |iso|);
    TidyRowWithin(Forest(g, rank, d), ForestLeft(g, rank, d), TopY, Footprint(d), d.levelHeight);
  }

  /** Root trees do not overlap: each lies at least one footprint right of those before it. */
  lemma ForestApart<K, D>(g: Graph<K, D>, rank: map<K, nat>, d: Dims, j: nat)
    requires Acyclic(g, rank) && Footprint(d) >= 0.0 && j < |TreeRoots(g)|
    ensures var ts := Forest(g, rank, d);
      forall a, b | a in RowNodes(ts[..j]) && b in Nodes(ts[j]) :: b.x - a.x >= Footprint(d)
  {
    ForestPacked(g, rank, d);
    TidySiblingsApart(Forest(g, rank, d), ForestLeft(g, rank, d), TopY, Footprint(d), d.levelHeight, j);
  }
}
