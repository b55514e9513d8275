/**
 * The tidy-tree layout of components/tree/family-tree-chart.tsx, stated on values.
 *
 * `SubtreeWidth` is `calculateSubtreeWidth` (a leaf needs one node plus spacing, an inner
 * node the larger of that and the sum of its children's widths). `Place` is the tree that
 * `positionSubtree` builds: children side by side in contiguous slots that start at the
 * left edge of the parent's slot, each centred in its own slot one level lower, and the
 * parent re-centred over its first and last child. `Nodes` and `Links` are what the pass
 * appends to `allNodes` and `allLinks`, in the same order.
 *
 * TreeNode objects are values carrying `ref`, the serial of the object allocated at the
 * start of each `positionSubtree` call; a link records the two serials, so that it denotes
 * the parent's final position as the rendering code reads it.
 *
 * The source recurses without a visited set, so a cycle reachable from a root makes it run
 * forever. The model demands a ghost `rank` that decreases from parent to child on every
 * ranked node, which is exactly the absence of such a cycle.
 */
module TreeLayout {
  import opened TreeGraph

  /** Sizes that depend on the canvas width (family-tree-chart.tsx:110-114, 148-151, 336). */
  datatype Dims = Dims(
    width: real, nodeWidth: real, nodeHeight: real, minNodeSpacing: real, levelHeight: real,
    maxNameLength: nat)

  function DimsFor(width: real): (d: Dims)
    ensures d.width == width
    ensures d.nodeWidth == (if width < 1024.0 then 120.0 else 130.0)
    ensures d.nodeHeight == (if width < 1024.0 then 70.0 else 80.0)
    ensures d.minNodeSpacing == (if width < 768.0 then 15.0 else 20.0)
    ensures d.levelHeight == (if width < 768.0 then 110.0 else 140.0)
    ensures d.maxNameLength == (if width < 768.0 then 15 else 18)
    ensures Footprint(d) >= 135.0
  {
    Dims(width,
      if width < 1024.0 then 120.0 else 130.0,
      if width < 1024.0 then 70.0 else 80.0,
      if width < 768.0 then 15.0 else 20.0,
      if width < 768.0 then 110.0 else 140.0,
      if width < 768.0 then 15 else 18)
  }

  /** The width a leaf needs: one node and the spacing beside it. */
  function Footprint(d: Dims): real {
    d.nodeWidth + d.minNodeSpacing
  }

  function Max(a: real, b: real): (m: real)
    ensures m >= a && m >= b && (m == a || m == b)
  {
    if a >= b then a else b
  }

  /** Every ranked node has its children ranked strictly lower: no cycle below a ranked node. */
  ghost predicate Ranked<K, D>(g: Graph<K, D>, rank: map<K, nat>) {
    forall k | k in rank ::
      k in g.children && forall i | 0 <= i < |g.children[k]| ::
        g.children[k][i] in rank && rank[g.children[k][i]] < rank[k]
  }

  /** Every id of the row is ranked below `bound`. */
  ghost predicate RowBelow<K>(rank: map<K, nat>, ids: seq<K>, bound: nat) {
    forall i | 0 <= i < |ids| :: ids[i] in rank && rank[ids[i]] < bound
  }

  /** `calculateSubtreeWidth(node)` */
  function SubtreeWidth<K, D>(g: Graph<K, D>, ghost rank: map<K, nat>, d: Dims, k: K): (w: real)
    requires Ranked(g, rank) && k in rank
    ensures w >= Footprint(d)
    ensures g.children[k] == [] ==> w == Footprint(d)
    decreases rank[k], 1
  {
    var cs := g.children[k];
    if cs == [] then Footprint(d) else Max(Footprint(d), RowWidth(g, rank, d, cs, rank[k], |cs|))
  }

  /** The sum of the subtree widths of the first `n` ids of a row (the `reduce` of line 173). */
  function RowWidth<K, D>(g: Graph<K, D>, ghost rank: map<K, nat>, d: Dims, ids: seq<K>, ghost bound: nat, n: nat): real
    requires Ranked(g, rank) && RowBelow(rank, ids, bound) && n <= |ids|
    decreases bound, 0, n
  {
    if n == 0 then 0.0
    else RowWidth(g, rank, d, ids, bound, n - 1) + SubtreeWidth(g, rank, d, ids[n - 1])
  }

  /** One positioned node: the TreeNode object with serial `ref`. */
  datatype TreeNode<K> = TreeNode(ref: nat, id: K, x: real, y: real, width: real)

  /** An entry of `allLinks`: the serials of the parent and the child objects. */
  datatype Edge = Edge(source: nat, target: nat)

  /** A positioned subtree: its node and its children's subtrees in order. */
  datatype Placed<K> = Placed(node: TreeNode<K>, kids: seq<Placed<K>>)

  /**
   * `positionSubtree(k, cx, y, …)` when the next object serial is `ref`: the positioned
   * subtree and the next serial afterwards.
   */
  function Place<K, D>(g: Graph<K, D>, ghost rank: map<K, nat>, d: Dims, k: K, cx: real, y: real, ref: nat): (r: (Placed<K>, nat))
    requires Ranked(g, rank) && k in rank
    ensures r.0.node.ref == ref && r.0.node.id == k && r.0.node.y == y && r.0.node.width == SubtreeWidth(g, rank, d, k)
    ensures |r.0.kids| == |g.children[k]| && r.1 > ref
    decreases rank[k], 1
  {
    var w := SubtreeWidth(g, rank, d, k);
    var cs := g.children[k];
    var row := PlaceRow(g, rank, d, cs, rank[k], |cs|, cx - w / 2.0, y + d.levelHeight, ref + 1);
    var kids := row.0;
    var x := if kids == [] then cx else (kids[0].node.x + kids[|kids| - 1].node.x) / 2.0;
    (Placed(TreeNode(ref, k, x, y, w), kids), row.1)
  }

  /**
   * The first `n` ids of a row placed side by side from `left` (the loop over the children
   * with its running `childX`): each id centred in a slot as wide as its subtree, the slots
   * consecutive. Also the next serial and the right edge of the last slot.
   */
  function PlaceRow<K, D>(g: Graph<K, D>, ghost rank: map<K, nat>, d: Dims, ids: seq<K>, ghost bound: nat, n: nat,
                          left: real, y: real, ref: nat): (r: (seq<Placed<K>>, nat, real))
    requires Ranked(g, rank) && RowBelow(rank, ids, bound) && n <= |ids|
    ensures |r.0| == n && r.1 >= ref
    decreases bound, 0, n
  {
    if n == 0 then ([], ref, left)
    else
      var p := PlaceRow(g, rank, d, ids, bound, n - 1, left, y, ref);
      var w := SubtreeWidth(g, rank, d, ids[n - 1]);
      var t := Place(g, rank, d, ids[n - 1], p.2 + w / 2.0, y, p.1);
      (p.0 + [t.0], t.1, p.2 + w)
  }

  /** What a subtree appends to `allNodes`: its children's subtrees in order, then itself. */
  function Nodes<K>(t: Placed<K>): seq<TreeNode<K>>
    decreases t
  {
    RowNodes(t.kids) + [t.node]
  }

  function RowNodes<K>(ts: seq<Placed<K>>): seq<TreeNode<K>>
    decreases ts
  {
    if ts == [] then [] else RowNodes(ts[..|ts| - 1]) + Nodes(ts[|ts| - 1])
  }

  /** What a subtree appends to `allLinks`: for each child, its subtree's links, then the link to it. */
  function Links<K>(t: Placed<K>): seq<Edge>
    decreases t
  {
    RowLinks(t.node.ref, t.kids)
  }

  function RowLinks<K>(parent: nat, ts: seq<Placed<K>>): seq<Edge>
    decreases ts
  {
    if ts == [] then []
    else RowLinks(parent, ts[..|ts| - 1]) + Links(ts[|ts| - 1]) + [Edge(parent, ts[|ts| - 1].node.ref)]
  }
}
