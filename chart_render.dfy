/**
 * The drawing rules of components/tree/family-tree-chart.tsx that are arithmetic rather than
 * DOM construction: the elbow connector of every link, the node label and its truncation,
 * and the stroke that marks the focused node.
 *
 * A link holds the serials of its two TreeNode objects; drawing it reads those objects'
 * final coordinates, which is `FindRef` in `allNodes`.
 */
module ChartRender {
  import opened Wrappers
  import JsText
  import opened TreeGraph
  import opened TreeLayout
  import opened TreeLayoutProps
  import opened ChartLayout
  import opened ChartLayoutProps

  datatype Point = Point(x: real, y: real)

  /** The path `M start L down L across L end` of one connector. */
  datatype Elbow = Elbow(start: Point, down: Point, across: Point, end: Point)

  /**
   * The connector from `source` to `target` (lines 259-268): from the bottom centre of the
   * source box straight down, across at the height midway between the two boxes, and down
   * into the top centre of the target box.
   */
  function ElbowPath<K>(nodeHeight: real, source: TreeNode<K>, target: TreeNode<K>): (e: Elbow)
    ensures e.start == Point(source.x, source.y + nodeHeight / 2.0)
    ensures e.end == Point(target.x, target.y - nodeHeight / 2.0)
    ensures e.down.x == e.start.x && e.across.x == e.end.x && e.down.y == e.across.y
    ensures e.down.y - e.start.y == e.end.y - e.across.y
    ensures e.down.y == (source.y + target.y) / 2.0
  {
    var sourceY := source.y + nodeHeight / 2.0;
    var targetY := target.y - nodeHeight / 2.0;
    var midY := sourceY + (targetY - sourceY) / 2.0;
    Elbow(Point(source.x, sourceY), Point(source.x, midY), Point(target.x, midY), Point(target.x, targetY))
  }

  /** The object with serial `r` among the positioned nodes, the first one if several. */
  function FindRef<K(==)>(ns: seq<TreeNode<K>>, r: nat): (o: Option<TreeNode<K>>)
    ensures o.Some? ==> o.value in ns && o.value.ref == r
    ensures o.None? <==> forall i | 0 <= i < |ns| :: ns[i].ref != r
  {
    if ns == [] then None
    else if ns[0].ref == r then Some(ns[0])
    else
      var o := FindRef(ns[1..], r);
      assert forall i | 1 <= i < |ns| :: ns[1..][i - 1] == ns[i];
      o
  }

  /** Among objects with distinct serials, the one with serial `n.ref` is `n`. */
  lemma {:induction false} FindRefDistinct<K>(ns: seq<TreeNode<K>>, n: TreeNode<K>)
    requires DistinctRefs(ns) && n in ns
    ensures FindRef(ns, n.ref) == Some(n)
  {
    if ns[0] != n {
      assert n in ns[1..];
      assert DistinctRefs(ns[1..]) by {
        forall i, j | 0 <= i < j < |ns[1..]|
          ensures ns[1..][i].ref != ns[1..][j].ref
        {
          assert ns[1..][i] == ns[i + 1] && ns[1..][j] == ns[j + 1];
        }
      }
      FindRefDistinct(ns[1..], n);
      var k :| 0 <= k < |ns| && ns[k] == n;
      assert k != 0;
    }
  }

  /** The connector drawn for a link, read through the two objects it refers to. */
  function LinkPath<K(==)>(ns: seq<TreeNode<K>>, nodeHeight: real, e: Edge): Option<Elbow> {
    match (FindRef(ns, e.source), FindRef(ns, e.target))
    case (Some(s), Some(t)) => Some(ElbowPath(nodeHeight, s, t))
    case _ => None
  }

  /** A link joins two nodes of `ns`, the target one level (`lh`) below the source. */
  predicate Spans<K(==)>(ns: seq<TreeNode<K>>, e: Edge, lh: real) {
    exists a, b | a in ns && b in ns :: a.ref == e.source && b.ref == e.target && b.y == a.y + lh
  }

  lemma SpansWiden<K>(ns: seq<TreeNode<K>>, ms: seq<TreeNode<K>>, e: Edge, lh: real)
    requires Spans(ns, e, lh) && forall n | n in ns :: n in ms
    ensures Spans(ms, e, lh)
  {
    var a, b :| a in ns && b in ns && a.ref == e.source && b.ref == e.target && b.y == a.y + lh;
    assert a in ms && b in ms;
  }

  /** Every link of a tidy subtree joins two of its nodes, one level apart. */
  lemma {:induction false} TidyLinksSpan<K>(t: Placed<K>, cx: real, f: real, lh: real)
    requires Tidy(t, cx, f, lh)
    ensures forall e | e in Links(t) :: Spans(Nodes(t), e, lh)
    decreases t, 1
  {
    TidyRowLinksSpan(t.node, t.kids, cx - t.node.width / 2.0, f, lh);
  }

  /** The links of a tidy row under `parent`: each joins two nodes of the row or the parent. */
  lemma {:induction false} TidyRowLinksSpan<K>(parent: TreeNode<K>, ts: seq<Placed<K>>, left: real, f: real, lh: real)
    requires TidyRow(ts, left, parent.y + lh, f, lh)
    ensures forall e | e in RowLinks(parent.ref, ts) :: Spans(RowNodes(ts) + [parent], e, lh)
    decreases ts, 0
  {
    if ts != [] {
      var front, last := ts[..|ts| - 1], ts[|ts| - 1];
      var all := RowNodes(ts) + [parent];
      RowSnoc(parent.ref, front, last);
      assert ts == front + [last];
      assert RowNodes(ts) == RowNodes(front) + Nodes(last);
      TidyRowLinksSpan(parent, front, left, f, lh);
      TidyLinksSpan(last, left + SlotsWidth(front) + last.node.width / 2.0, f, lh);
      forall e | e in RowLinks(parent.ref, ts)
        ensures Spans(all, e, lh)
      {
        if e in RowLinks(parent.ref, front) {
          SpansWiden(RowNodes(front) + [parent], all, e, lh);
        } else if e in Links(last) {
          SpansWiden(Nodes(last), all, e, lh);
        } else {
          assert e == Edge(parent.ref, last.node.ref);
          assert last.node in Nodes(last);
          assert parent in all && last.node in all;
        }
      }
    }
  }

  /** The links of a tidy row of root trees: each joins two nodes of the row. */
  lemma {:induction false} TidyForestLinksSpan<K>(ts: seq<Placed<K>>, left: real, y: real, f: real, lh: real)
    requires TidyRow(ts, left, y, f, lh)
    ensures forall e | e in ForestLinks(ts) :: Spans(RowNodes(ts), e, lh)
    decreases ts
  {
    if ts != [] {
      var front, last := ts[..|ts| - 1], ts[|ts| - 1];
      assert ts == front + [last];
      RowSnoc(0, front, last);
      TidyForestLinksSpan(front, left, y, f, lh);
      TidyLinksSpan(last, left + SlotsWidth(front) + last.node.width / 2.0, f, lh);
      forall e | e in ForestLinks(ts)
        ensures Spans(RowNodes(ts), e, lh)
      {
        if e in ForestLinks(front) {
          SpansWiden(RowNodes(front), RowNodes(ts), e, lh);
        } else {
          SpansWiden(Nodes(last), RowNodes(ts), e, lh);
        }
      }
    }
  }

  /**
   * Every link of the pass is drawn: both of its objects are found among `allNodes`, and
   * its connector runs from the parent's box down to the child's, turning at half a level
   * below the parent.
   */
  lemma LayoutLinkDrawn<K, D>(g: Graph<K, D>, rank: map<K, nat>, d: Dims, e: Edge)
    requires Acyclic(g, rank) && Footprint(d) >= 0.0 && e in Layout(g, rank, d).1
    ensures var ns := Layout(g, rank, d).0;
      && LinkPath(ns, d.nodeHeight, e).Some?
      && var p := LinkPath(ns, d.nodeHeight, e).value;
      && p.down.y == FindRef(ns, e.source).value.y + d.levelHeight / 2.0
      && p.end.y == FindRef(ns, e.source).value.y + d.levelHeight - d.nodeHeight / 2.0
  {
    var ns := Layout(g, rank, d).0;
    var ts := Forest(g, rank, d);
    var iso := Isolated(g, g.keys);
    ForestPacked(g, rank, d);
    TidyForestLinksSpan(ts, ForestLeft(g, rank, d), TopY, Footprint(d), d.levelHeight);
    assert ns == Lane(d, iso, 0) + RowNodes(ts);
    SpansWiden(RowNodes(ts), ns, e, d.levelHeight);
    var a, b :| a in ns && b in ns && a.ref == e.source && b.ref == e.target && b.y == a.y + d.levelHeight;
    LayoutRefs(g, rank, d);
    FindRefDistinct(ns, a);
    FindRefDistinct(ns, b);
  }

  /**
   * The text under a node (line 344): its id, else its name, else "Unknown", where an
   * absent or empty string counts as missing.
   */
  function LabelName(id: Option<string>, name: Option<string>): (s: string)
    ensures id.Some? && id.value != "" ==> s == id.value
    ensures (id.None? || id.value == "") && name.Some? && name.value != "" ==> s == name.value
    ensures (id.None? || id.value == "") && (name.None? || name.value == "") ==> s == "Unknown"
  {
    JsText.OrElse(id, JsText.OrElse(name, "Unknown"))
  }

  /**
   * The label actually drawn (line 345): a name longer than `maxLen` is cut to its first
   * `maxLen - 3` characters followed by "..."; JavaScript's `substring` treats a negative
   * end as 0.
   */
  function Truncate(name: string, maxLen: nat): (r: string)
    ensures |name| <= maxLen ==> r == name
    ensures |name| > maxLen && maxLen >= 3 ==> |r| == maxLen && r == name[..maxLen - 3] + "..."
    ensures |r| <= maxLen || maxLen < 3
  {
    if |name| > maxLen then name[..if maxLen >= 3 then maxLen - 3 else 0] + "..." else name
  }

  /** A label never exceeds the responsive maximum, and a short name is drawn in full. */
  lemma LabelFits(width: real, id: Option<string>, name: Option<string>)
    ensures var maxLen := DimsFor(width).maxNameLength;
      var shown := Truncate(LabelName(id, name), maxLen);
      && |shown| <= maxLen
      && (|LabelName(id, name)| <= maxLen ==> shown == LabelName(id, name))
      && (|LabelName(id, name)| > maxLen ==> shown[..maxLen - 3] == LabelName(id, name)[..maxLen - 3])
  {
    var maxLen := DimsFor(width).maxNameLength;
    assert maxLen >= 15;
  }

  /**
   * The outline of a node's box (lines 361-371): red and doubled for the focused node. As
   * in `RenderStep`, an empty focused name is given as `None`.
   */
  datatype Stroke = Stroke(colour: string, width: nat)

  function NodeStroke<K(==)>(id: K, focused: Option<K>): (s: Stroke)
    ensures focused == Some(id) <==> s == Stroke("#ff6b6b", 4)
    ensures focused != Some(id) <==> s == Stroke("#fff", 2)
  {
    if focused.Some? && focused.value == id then Stroke("#ff6b6b", 4) else Stroke("#fff", 2)
  }
}
