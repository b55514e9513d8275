/**
 * The layout pass of components/tree/family-tree-chart.tsx as it runs: `nodeMap` is
 * filled from the node list and then from the link list, and `positionSubtree` and the
 * loops around it append to `allNodes` and `allLinks` while a counter hands out a fresh
 * serial for every TreeNode object created.
 *
 * Each method is proved to leave the state the functions of `TreeGraph`, `TreeLayout` and
 * `ChartLayout` describe, so everything proved about those functions holds of the pass.
 */
module LayoutPass {
  import opened TreeGraph
  import opened TreeLayout
  import opened TreeLayoutProps
  import opened ChartLayout
  import opened ChartLayoutProps

  class Pass<K(==), D> {
    /** The sizes for the canvas width of this render. */
    const dims: Dims

    /** `nodeMap`: its keys in insertion order, the record kept per key and the two lists. */
    var keys: seq<K>
    var records: map<K, D>
    var children: map<K, seq<K>>
    var parents: map<K, seq<K>>

    var allNodes: seq<TreeNode<K>>
    var allLinks: seq<Edge>

    /** The serial of the next TreeNode object to be created. */
    var nextRef: nat

    function Adjacency(): Graph<K, D>
      reads this`keys, this`records, this`children, this`parents
    {
      Graph(keys, records, children, parents)
    }

    constructor(width: real)
      ensures dims == DimsFor(width)
      ensures keys == [] && records == map[] && children == map[] && parents == map[]
      ensures allNodes == [] && allLinks == [] && nextRef == 0
    {
      dims := DimsFor(width);
      keys, records, children, parents := [], map[], map[], map[];
      allNodes, allLinks, nextRef := [], [], 0;
    }

    /**
     * `nodeMap` built from the chart's input: a fresh map with one entry per node, then the
     * links attached (lines 120-137).
     */
    method BuildMap(nodes: seq<NodeRec<K, D>>, links: seq<Link<K>>)
      modifies this`keys, this`records, this`children, this`parents
      ensures Adjacency() == GraphOf(nodes, links)
    {
      var ks, rs, empty := SetNodes(nodes);
      ghost var keySet := KeySetOf(ks);
      assert keySet == rs.Keys by {
        forall k
          ensures k in ks <==> k in rs
        {
          KeysAgree(nodes, k);
        }
      }
      var cs, ps := AttachLinks(links, keySet, rs, empty);
      keys, records, children, parents := ks, rs, cs, ps;
    }
    /** The isolated nodes, pushed one below the other in the lane (lines 154-164). */
    method PlaceIsolated(g: Graph<K, D>)
      modifies this`allNodes, this`nextRef
      requires HasLists(g, g.keys)
      ensures allNodes == old(allNodes) + Lane(dims, Isolated(g, g.keys), old(nextRef))
      ensures nextRef == old(nextRef) + |Isolated(g, g.keys)|
    {
      var iso := Isolated(g, g.keys);
      for i := 0 to |iso|
        invariant allNodes == old(allNodes) + Lane(dims, iso[..i], old(nextRef))
        invariant nextRef == old(nextRef) + i
      {
        LaneSnoc(dims, iso, old(nextRef), i);
        var node := TreeNode(nextRef, iso[i], LaneX(dims), LaneY(dims, i), dims.nodeWidth);
        allNodes := allNodes + [node];
        nextRef := nextRef + 1;
      }
      assert iso[..|iso|] == iso;
    }

    /**
     * `positionSubtree(k, x, y, …)`: a new TreeNode for `k`, its children positioned
     * left to right in consecutive slots from `x - width / 2`, each followed by the link to
     * it, the node re-centred over its first and last child, and finally pushed itself.
     */
    method PositionSubtree(g: Graph<K, D>, ghost rank: map<K, nat>, k: K, x: real, y: real) returns (t: Placed<K>)
      modifies this`allNodes, this`allLinks, this`nextRef
      requires Ranked(g, rank) && k in rank
      ensures (t, nextRef) == Place(g, rank, dims, k, x, y, old(nextRef))
      ensures allNodes == old(allNodes) + Nodes(t)
      ensures allLinks == old(allLinks) + Links(t)
      decreases rank[k], 2
    {
      var ref := nextRef;
      nextRef := nextRef + 1;
      var w := SubtreeWidth(g, rank, dims, k);
      var kids, right := PositionChildren(g, rank, k, ref, x - w / 2.0, y + dims.levelHeight);
      var nodeX := if |kids| > 0 then (kids[0].node.x + kids[|kids| - 1].node.x) / 2.0 else x;
      t := Placed(TreeNode(ref, k, nodeX, y, w), kids);
      allNodes := allNodes + [t.node];
      assert Nodes(t) == RowNodes(kids) + [t.node];
      PlaceFromRow(g, rank, dims, k, x, y, ref, kids, nextRef, right);
    }

    /**
     * The loop over the children of `k`, whose object has serial `ref`: each child's subtree
     * in the next slot from `left`, each followed by its link. Also the right edge reached.
     */
    method PositionChildren(g: Graph<K, D>, ghost rank: map<K, nat>, k: K, ref: nat, left: real, childY: real)
      returns (kids: seq<Placed<K>>, right: real)
      modifies this`allNodes, this`allLinks, this`nextRef
      requires Ranked(g, rank) && k in rank
      ensures (kids, nextRef, right) == PlaceRow(g, rank, dims, g.children[k], rank[k], |g.children[k]|, left, childY, old(nextRef))
      ensures allNodes == old(allNodes) + RowNodes(kids)
      ensures allLinks == old(allLinks) + RowLinks(ref, kids)
      decreases rank[k], 1
    {
      kids, right := [], left;
      for i := 0 to |g.children[k]|
        invariant (kids, nextRef, right) == PlaceRow(g, rank, dims, g.children[k], rank[k], i, left, childY, old(nextRef))
        invariant allNodes == old(allNodes) + RowNodes(kids)
        invariant allLinks == old(allLinks) + RowLinks(ref, kids)
      {
        var child, childWidth := PositionChild(g, rank, k, ref, i, left, childY, old(nextRef), kids, right);
        RowAppend(ref, old(allNodes), old(allLinks), kids, child);
        kids := kids + [child];
        right := right + childWidth;
      }
    }

    /**
     * The body of the loop over the children of `k` for the `i`-th child: its subtree
     * positioned in the next slot, then the link from `k`'s object to the child's.
     */
    method PositionChild(g: Graph<K, D>, ghost rank: map<K, nat>, k: K, ref: nat, i: nat, ghost left: real, childY: real,
                         ghost first: nat, ghost kids: seq<Placed<K>>, childX: real) returns (child: Placed<K>, childWidth: real)
      modifies this`allNodes, this`allLinks, this`nextRef
      requires Ranked(g, rank) && k in rank && i < |g.children[k]|
      requires (kids, nextRef, childX) == PlaceRow(g, rank, dims, g.children[k], rank[k], i, left, childY, first)
      ensures (kids + [child], nextRef, childX + childWidth)
           == PlaceRow(g, rank, dims, g.children[k], rank[k], i + 1, left, childY, first)
      ensures allNodes == old(allNodes) + Nodes(child)
      ensures allLinks == old(allLinks) + Links(child) + [Edge(ref, child.node.ref)]
      decreases rank[k], 0
    {
      var c := g.children[k][i];
      childWidth := SubtreeWidth(g, rank, dims, c);
      child := PositionSubtree(g, rank, c, childX + childWidth / 2.0, childY);
      RowStep(g, rank, dims, g.children[k], rank[k], i, left, childY, first, kids, old(nextRef), childX, child, nextRef);
      allLinks := allLinks + [Edge(ref, child.node.ref)];
    }

    /** Each root's subtree width, and their sum `totalRootWidth` (lines 227-235). */
    method MeasureRoots(g: Graph<K, D>, ghost rank: map<K, nat>, roots: seq<K>, ghost bound: nat)
      returns (total: real, widths: seq<real>)
      requires Ranked(g, rank) && RowBelow(rank, roots, bound)
      ensures total == RowWidth(g, rank, dims, roots, bound, |roots|)
      ensures widths == RowWidths(g, rank, dims, roots, bound, |roots|)
    {
      total, widths := 0.0, [];
      for i := 0 to |roots|
        invariant total == RowWidth(g, rank, dims, roots, bound, i)
        invariant widths == RowWidths(g, rank, dims, roots, bound, i)
      {
        var rootWidth := SubtreeWidth(g, rank, dims, roots[i]);
        widths := widths + [rootWidth];
        total := total + rootWidth;
      }
    }

    /**
     * The roots with relationships: their widths summed, then each tree positioned in its
     * slot from `isolatedColumnWidth + 50 - totalRootWidth / 2` at the top (lines 222-245).
     */
    method PlaceRoots(g: Graph<K, D>, ghost rank: map<K, nat>)
      modifies this`allNodes, this`allLinks, this`nextRef
      requires Acyclic(g, rank)
      ensures var row := PlaceRow(g, rank, dims, TreeRoots(g), RankBound(rank, TreeRoots(g)), |TreeRoots(g)|,
                                  ForestLeft(g, rank, dims), TopY, old(nextRef));
        && allNodes == old(allNodes) + RowNodes(row.0) && allLinks == old(allLinks) + ForestLinks(row.0)
        && nextRef == row.1
    {
      var roots := Roots(g, g.keys);
      var connected := WithRelationships(g, roots);
      assert connected == TreeRoots(g);
      ghost var bound := RankBound(rank, connected);
      var totalRootWidth, rootWidths := MeasureRoots(g, rank, connected, bound);
      var start := LaneWidth(dims) + 50.0 - totalRootWidth / 2.0;
      PositionRoots(g, rank, connected, bound, rootWidths, start);
    }

    /** The loop over the roots: each tree positioned in its slot, the slots consecutive from `start`. */
    method PositionRoots(g: Graph<K, D>, ghost rank: map<K, nat>, roots: seq<K>, ghost bound: nat,
                         rootWidths: seq<real>, start: real)
      modifies this`allNodes, this`allLinks, this`nextRef
      requires Ranked(g, rank) && RowBelow(rank, roots, bound)
      requires rootWidths == RowWidths(g, rank, dims, roots, bound, |roots|)
      ensures allNodes == old(allNodes) + RowNodes(PlaceRow(g, rank, dims, roots, bound, |roots|, start, TopY, old(nextRef)).0)
      ensures allLinks == old(allLinks) + ForestLinks(PlaceRow(g, rank, dims, roots, bound, |roots|, start, TopY, old(nextRef)).0)
      ensures nextRef == PlaceRow(g, rank, dims, roots, bound, |roots|, start, TopY, old(nextRef)).1
    {
      var currentX := start;
      ghost var placed: seq<Placed<K>> := [];
      ghost var first, nodes0, links0 := nextRef, allNodes, allLinks;
      for i := 0 to |roots|
        invariant (placed, nextRef, currentX) == PlaceRow(g, rank, dims, roots, bound, i, start, TopY, first)
        invariant allNodes == nodes0 + RowNodes(placed)
        invariant allLinks == links0 + ForestLinks(placed)
      {
        var rootWidth := rootWidths[i];
        RowWidthsAt(g, rank, dims, roots, bound, |roots|, i);
        var tree := PositionRoot(g, rank, roots, bound, i, start, first, nodes0, links0, placed, currentX, rootWidth);
        placed := placed + [tree];
        currentX := currentX + rootWidth;
      }
    }

    /**
     * The body of the loop over the roots for the `i`-th root: its tree in the next slot,
     * after the trees `placed` of the roots before it.
     */
    method PositionRoot(g: Graph<K, D>, ghost rank: map<K, nat>, roots: seq<K>, ghost bound: nat, i: nat,
                        ghost start: real, ghost first: nat, ghost nodes0: seq<TreeNode<K>>, ghost links0: seq<Edge>,
                        ghost placed: seq<Placed<K>>, currentX: real, rootWidth: real)
      returns (tree: Placed<K>)
      modifies this`allNodes, this`allLinks, this`nextRef
      requires Ranked(g, rank) && RowBelow(rank, roots, bound) && i < |roots|
      requires rootWidth == SubtreeWidth(g, rank, dims, roots[i])
      requires (placed, nextRef, currentX) == PlaceRow(g, rank, dims, roots, bound, i, start, TopY, first)
      requires allNodes == nodes0 + RowNodes(placed) && allLinks == links0 + ForestLinks(placed)
      ensures (placed + [tree], nextRef, currentX + rootWidth) == PlaceRow(g, rank, dims, roots, bound, i + 1, start, TopY, first)
      ensures allNodes == nodes0 + RowNodes(placed + [tree])
      ensures allLinks == links0 + ForestLinks(placed + [tree])
    {
      tree := PositionSubtree(g, rank, roots[i], currentX + rootWidth / 2.0, TopY);
      RowStep(g, rank, dims, roots, bound, i, start, TopY, first, placed, old(nextRef), currentX, tree, nextRef);
      ForestAppend(nodes0, links0, placed, tree);
    }

    /**
     * The whole pass over the chart's input: the map and its lists, then the lane, then the
     * root trees; it ends with `allNodes` and `allLinks` as `Layout` gives them.
     */
    method Run(nodes: seq<NodeRec<K, D>>, links: seq<Link<K>>, ghost rank: map<K, nat>)
      modifies this
      requires Acyclic(GraphOf(nodes, links), rank)
      ensures Adjacency() == GraphOf(nodes, links)
      ensures (allNodes, allLinks) == Layout(GraphOf(nodes, links), rank, dims)
    {
      BuildMap(nodes, links);
      Draw(Adjacency(), rank);
    }

    /** The drawing part of the pass over a built adjacency: fresh lists, the lane, the root trees. */
    method Draw(g: Graph<K, D>, ghost rank: map<K, nat>)
      modifies this`allNodes, this`allLinks, this`nextRef
      requires Acyclic(g, rank)
      ensures (allNodes, allLinks) == Layout(g, rank, dims)
    {
      allNodes, allLinks, nextRef := [], [], 0;
      PlaceIsolated(g);
      ghost var lane, first := allNodes, nextRef;
      PlaceRoots(g, rank);
      LayoutOf(g, rank, dims, lane, first, allNodes, allLinks);
    }
  }

  /** The lists left by the lane and then the root trees, from empty lists and serial 0, are the layout. */
  lemma LayoutOf<K, D>(g: Graph<K, D>, rank: map<K, nat>, d: Dims, lane: seq<TreeNode<K>>, first: nat,
                       ns: seq<TreeNode<K>>, ls: seq<Edge>)
    requires Acyclic(g, rank)
    requires lane == [] + Lane(d, Isolated(g, g.keys), 0) && first == 0 + |Isolated(g, g.keys)|
    requires var row := PlaceRow(g, rank, d, TreeRoots(g), RankBound(rank, TreeRoots(g)), |TreeRoots(g)|,
                                 ForestLeft(g, rank, d), TopY, first);
      ns == lane + RowNodes(row.0) && ls == [] + ForestLinks(row.0)
    ensures (ns, ls) == Layout(g, rank, d)
  {
    assert [] + Lane(d, Isolated(g, g.keys), 0) == Lane(d, Isolated(g, g.keys), 0);
    var row := PlaceRow(g, rank, d, TreeRoots(g), RankBound(rank, TreeRoots(g)), |TreeRoots(g)|,
                        ForestLeft(g, rank, d), TopY, first);
    assert [] + ForestLinks(row.0) == ForestLinks(row.0);
  }

  /**
   * The node loop: an entry per node with empty lists; a repeated id keeps its first
   * position among the keys and takes the later record (lines 121-124).
   */
  method SetNodes<K(==), D>(nodes: seq<NodeRec<K, D>>) returns (keys: seq<K>, records: map<K, D>, empty: map<K, seq<K>>)
    ensures keys == MapKeys(Ids(nodes)) && records == DataMap(nodes)
    ensures empty == EmptyLists(records.Keys)
  {
    keys, records, empty := [], map[], map[];
    for i := 0 to |nodes|
      invariant keys == MapKeys(Ids(nodes[..i]))
      invariant records == DataMap(nodes[..i])
      invariant empty == EmptyLists(records.Keys)
    {
      var n := nodes[i];
      SetNodesStep(nodes, i, keys, records, empty);
      if n.id !in records {
        keys := keys + [n.id];
      }
      records := records[n.id := n.data];
      empty := empty[n.id := []];
    }
    assert nodes[..|nodes|] == nodes;
  }

  /** One turn of the node loop, stated on the loop's variables. */
  lemma SetNodesStep<K, D>(nodes: seq<NodeRec<K, D>>, i: nat, keys: seq<K>, records: map<K, D>, empty: map<K, seq<K>>)
    requires i < |nodes| && keys == MapKeys(Ids(nodes[..i])) && records == DataMap(nodes[..i])
    requires empty == EmptyLists(records.Keys)
    ensures var n := nodes[i];
      && MapKeys(Ids(nodes[..i + 1])) == (if n.id in records then keys else keys + [n.id])
      && DataMap(nodes[..i + 1]) == records[n.id := n.data]
      && empty[n.id := []] == EmptyLists(records[n.id := n.data].Keys)
  {
    EmptyListsSet(records, nodes[i].id, nodes[i].data);
    SetNodePrefix(nodes, i);
  }

  /** Setting a record gives its id empty lists. */
  lemma EmptyListsSet<K, D>(records: map<K, D>, k: K, v: D)
    ensures EmptyLists(records.Keys)[k := []] == EmptyLists(records[k := v].Keys)
  {
    EmptyListsAdd(records.Keys, k);
    assert records[k := v].Keys == records.Keys + {k};
  }

  /**
   * The link loop over fresh lists: a link whose two ends are keys appends its target to
   * its source's `children` and its source to its target's `parents`; any other is skipped
   * (lines 127-134).
   */
  method AttachLinks<K(==), D>(links: seq<Link<K>>, ghost ks: set<K>, records: map<K, D>, empty: map<K, seq<K>>)
    returns (children: map<K, seq<K>>, parents: map<K, seq<K>>)
    requires ks == records.Keys && empty == EmptyLists(ks)
    ensures children == ChildrenMap(links, ks)
    ensures parents == ParentsMap(links, ks)
  {
    children, parents := empty, empty;
    assert children == ChildrenMap(links[..0], ks);
    assert parents == ParentsMap(links[..0], ks);
    for j := 0 to |links|
      invariant children == ChildrenMap(links[..j], ks)
      invariant parents == ParentsMap(links[..j], ks)
    {
      var l := links[j];
      assert links[..j + 1] == links[..j] + [l];
      AttachChildStep(links[..j], ks, l);
      AttachParentStep(links[..j], ks, l);
      if l.source in records && l.target in records {
        children := children[l.source := children[l.source] + [l.target]];
        parents := parents[l.target := parents[l.target] + [l.source]];
      }
    }
    assert links[..|links|] == links;
  }
}
