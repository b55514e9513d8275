/**
 * The whole layout pass of components/tree/family-tree-chart.tsx, stated on values: the
 * lane of isolated nodes on the left, then the trees of the roots that have children,
 * packed side by side around `isolatedColumnWidth + 50`.
 *
 * `Layout` gives `allNodes` and `allLinks` as the pass leaves them; the class in
 * `LayoutPass` builds them step by step and is proved to end with exactly these values.
 */
module ChartLayout {
  import opened TreeGraph
  import opened TreeLayout
  import opened TreeLayoutProps

  /** The margin on every side of the drawing. */
  const Margin: real := 40.0

  /** The y of the first isolated node, and of every root. */
  const TopY: real := 60.0

  function LaneWidth(d: Dims): real {
    d.nodeWidth + 40.0
  }

  /** `isolatedColumnX`: the lane's centre, half a lane in from the left margin. */
  function LaneX(d: Dims): real {
    -(d.width - Margin - Margin) / 2.0 + LaneWidth(d) / 2.0
  }

  function LaneSpacing(d: Dims): real {
    d.nodeHeight + 15.0
  }

  /** The y of the `i`-th isolated node. */
  function LaneY(d: Dims, i: nat): real {
    TopY + i as real * LaneSpacing(d)
  }

  /** Every id of `ks` has both lists in the adjacency. */
  predicate HasLists<K(==), D>(g: Graph<K, D>, ks: seq<K>) {
    forall i | 0 <= i < |ks| :: ks[i] in g.children && ks[i] in g.parents
  }

  predicate IsRoot<K(==), D>(g: Graph<K, D>, k: K)
    requires k in g.parents
  {
    |g.parents[k]| == 0
  }

  predicate HasRelationships<K(==), D>(g: Graph<K, D>, k: K)
    requires k in g.children && k in g.parents
  {
    |g.children[k]| > 0 || |g.parents[k]| > 0
  }

  predicate IsIsolated<K(==), D>(g: Graph<K, D>, k: K)
    requires k in g.children && k in g.parents
  {
    |g.children[k]| == 0 && |g.parents[k]| == 0
  }

  /** `roots`: the ids without a parent, in map order. */
  function Roots<K(==), D>(g: Graph<K, D>, ks: seq<K>): (r: seq<K>)
    requires HasLists(g, ks)
    ensures HasLists(g, r)
    ensures forall i | 0 <= i < |r| :: r[i] in ks && IsRoot(g, r[i])
  {
    if ks == [] then []
    else
      var k := ks[|ks| - 1];
      Roots(g, ks[..|ks| - 1]) + (if IsRoot(g, k) then [k] else [])
  }

  /** `rootsWithRelationships`: those of `ks` with a child or a parent, in order. */
  function WithRelationships<K(==), D>(g: Graph<K, D>, ks: seq<K>): (r: seq<K>)
    requires HasLists(g, ks)
    ensures HasLists(g, r)
    ensures forall i | 0 <= i < |r| :: r[i] in ks && HasRelationships(g, r[i])
  {
    if ks == [] then []
    else
      var k := ks[|ks| - 1];
      WithRelationships(g, ks[..|ks| - 1]) + (if HasRelationships(g, k) then [k] else [])
  }

  /** `isolatedNodes`: the ids with neither children nor parents, in map order. */
  function Isolated<K(==), D>(g: Graph<K, D>, ks: seq<K>): (r: seq<K>)
    requires HasLists(g, ks)
    ensures forall i | 0 <= i < |r| :: r[i] in ks && IsIsolated(g, r[i])
  {
    if ks == [] then []
    else
      var k := ks[|ks| - 1];
      Isolated(g, ks[..|ks| - 1]) + (if IsIsolated(g, k) then [k] else [])
  }

  /** The roots the pass lays out as trees: exactly the parentless ids that have a child. */
  function TreeRoots<K(==), D>(g: Graph<K, D>): (r: seq<K>)
    requires HasLists(g, g.keys)
    ensures HasLists(g, r)
    ensures forall i | 0 <= i < |r| :: r[i] in g.keys && |g.parents[r[i]]| == 0 && |g.children[r[i]]| > 0
  {
    WithRelationships(g, Roots(g, g.keys))
  }

  /**
   * What the pass needs to terminate: every node below a tree root is ranked, child below
   * parent. Without it `calculateSubtreeWidth` recurses forever.
   */
  ghost predicate Acyclic<K, D>(g: Graph<K, D>, rank: map<K, nat>) {
    && HasLists(g, g.keys)
    && Ranked(g, rank)
    && forall i | 0 <= i < |TreeRoots(g)| :: TreeRoots(g)[i] in rank
  }

  /** A bound above the ranks of a row of ranked ids. */
  ghost function RankBound<K>(rank: map<K, nat>, ids: seq<K>): (b: nat)
    requires forall i | 0 <= i < |ids| :: ids[i] in rank
    ensures RowBelow(rank, ids, b)
  {
    if ids == [] then 0
    else
      var b := RankBound(rank, ids[..|ids| - 1]);
      var r := rank[ids[|ids| - 1]] + 1;
      assert forall i | 0 <= i < |ids| - 1 :: ids[..|ids| - 1][i] == ids[i];
      if b >= r then b else r
  }

  /** The isolated nodes, one below the other in the lane, with serials from `ref`. */
  function Lane<K>(d: Dims, iso: seq<K>, ref: nat): (r: seq<TreeNode<K>>)
    ensures |r| == |iso|
  {
    if iso == [] then []
    else
      var i := |iso| - 1;
      Lane(d, iso[..i], ref) + [TreeNode(ref + i, iso[i], LaneX(d), LaneY(d, i), d.nodeWidth)]
  }

  /** The links of a row of trees without a common parent: each tree's links in turn. */
  function ForestLinks<K>(ts: seq<Placed<K>>): seq<Edge> {
    if ts == [] then [] else ForestLinks(ts[..|ts| - 1]) + Links(ts[|ts| - 1])
  }

  /** `rootWidths`: the subtree widths of the first `n` ids of a row, in order. */
  function RowWidths<K, D>(g: Graph<K, D>, ghost rank: map<K, nat>, d: Dims, ids: seq<K>, ghost bound: nat, n: nat): (ws: seq<real>)
    requires Ranked(g, rank) && RowBelow(rank, ids, bound) && n <= |ids|
    ensures |ws| == n
  {
    if n == 0 then [] else RowWidths(g, rank, d, ids, bound, n - 1) + [SubtreeWidth(g, rank, d, ids[n - 1])]
  }

  /** The sum of the tree roots' subtree widths (`totalRootWidth`). */
  function TotalRootWidth<K(==), D>(g: Graph<K, D>, ghost rank: map<K, nat>, d: Dims): real
    requires Acyclic(g, rank)
  {
    RowWidth(g, rank, d, TreeRoots(g), RankBound(rank, TreeRoots(g)), |TreeRoots(g)|)
  }

  /** `mainTreeStartX`: the left edge of the first root's slot. */
  function ForestLeft<K(==), D>(g: Graph<K, D>, ghost rank: map<K, nat>, d: Dims): real
    requires Acyclic(g, rank)
  {
    LaneWidth(d) + 50.0 - TotalRootWidth(g, rank, d) / 2.0
  }

  /** The root trees, placed side by side from `ForestLeft` at `TopY`, serials after the lane's. */
  function Forest<K(==), D>(g: Graph<K, D>, ghost rank: map<K, nat>, d: Dims): (ts: seq<Placed<K>>)
    requires Acyclic(g, rank)
    ensures |ts| == |TreeRoots(g)|
  {
    var roots := TreeRoots(g);
    PlaceRow(g, rank, d, roots, RankBound(rank, roots), |roots|, ForestLeft(g, rank, d), TopY, |Isolated(g, g.keys)|).0
  }

  /** `allNodes` and `allLinks` at the end of the pass. */
  function Layout<K(==), D>(g: Graph<K, D>, ghost rank: map<K, nat>, d: Dims): (r: (seq<TreeNode<K>>, seq<Edge>))
    requires Acyclic(g, rank)
  {
    var ts := Forest(g, rank, d);
    (Lane(d, Isolated(g, g.keys), 0) + RowNodes(ts), ForestLinks(ts))
  }
}
