/**
 * What the layout of family-tree-chart.tsx guarantees: every subtree stays inside the slot
 * its parent gave it, sibling subtrees do not overlap, children sit one level lower, a parent
 * sits between its first and last child, one link is emitted per placed child, and a node
 * is emitted once per path that reaches it from the node being placed.
 */
module TreeLayoutProps {
  import opened TreeGraph
  import opened TreeLayout

  /** Every node of `ns` has its centre within `[lo, hi]`. */
  predicate WithinX<K>(ns: seq<TreeNode<K>>, lo: real, hi: real) {
    forall i | 0 <= i < |ns| :: lo <= ns[i].x <= hi
  }

  lemma WithinXConcat<K>(a: seq<TreeNode<K>>, b: seq<TreeNode<K>>, lo: real, hi: real)
    requires WithinX(a, lo, hi) && WithinX(b, lo, hi)
    ensures WithinX(a + b, lo, hi)
  {
    forall i | 0 <= i < |a + b|
      ensures lo <= (a + b)[i].x <= hi
    {
      if i >= |a| {
        assert (a + b)[i] == b[i - |a|];
      }
    }
  }

  lemma WithinXWiden<K>(ns: seq<TreeNode<K>>, lo: real, hi: real, lo': real, hi': real)
    requires WithinX(ns, lo, hi) && lo' <= lo && hi <= hi'
    ensures WithinX(ns, lo', hi')
  {
  }

  /** The total of the subtree widths recorded on a row of placed subtrees. */
  function SlotsWidth<K>(ts: seq<Placed<K>>): real {
    if ts == [] then 0.0 else SlotsWidth(ts[..|ts| - 1]) + ts[|ts| - 1].node.width
  }

  /**
   * The geometry of a subtree placed at centre `cx`, stated on the placed tree alone: its
   * width is at least the footprint `f` and covers its children's slots; its children, one
   * level (`lh`) lower, are centred in consecutive slots starting at its left edge; and it
   * sits at `cx` when it is a leaf, midway between its first and last child otherwise.
   */
  predicate Tidy<K>(t: Placed<K>, cx: real, f: real, lh: real)
    decreases t, 1
  {
    && t.node.width >= f
    && (t.kids != [] ==> SlotsWidth(t.kids) <= t.node.width)
    && (t.kids == [] ==> t.node.x == cx)
    && (t.kids != [] ==> t.node.x == (t.kids[0].node.x + t.kids[|t.kids| - 1].node.x) / 2.0)
    && TidyRow(t.kids, cx - t.node.width / 2.0, t.node.y + lh, f, lh)
  }

  /** A row of subtrees at height `y` in consecutive slots from `left`, each one tidy in its slot. */
  predicate TidyRow<K>(ts: seq<Placed<K>>, left: real, y: real, f: real, lh: real)
    decreases ts, 0
  {
    ts != [] ==>
      var front, last := ts[..|ts| - 1], ts[|ts| - 1];
      && TidyRow(front, left, y, f, lh)
      && last.node.y == y
      && Tidy(last, left + SlotsWidth(front) + last.node.width / 2.0, f, lh)
  }

  /** An inner node is at least as wide as its children's subtrees side by side. */
  lemma SubtreeWidthCoversChildren<K, D>(g: Graph<K, D>, rank: map<K, nat>, d: Dims, k: K)
    requires Ranked(g, rank) && k in rank && g.children[k] != []
    ensures SubtreeWidth(g, rank, d, k) >= RowWidth(g, rank, d, g.children[k], rank[k], |g.children[k]|)
  {
  }

  /** The parts of `Tidy` gathered into it. */
  lemma TidyIntro<K>(t: Placed<K>, cx: real, f: real, lh: real)
    requires t.node.width >= f && (t.kids != [] ==> SlotsWidth(t.kids) <= t.node.width)
    requires t.node.x == if t.kids == [] then cx else (t.kids[0].node.x + t.kids[|t.kids| - 1].node.x) / 2.0
    requires TidyRow(t.kids, cx - t.node.width / 2.0, t.node.y + lh, f, lh)
    ensures Tidy(t, cx, f, lh)
  {
  }

  /** A tidy row with one more tidy subtree in the next slot. */
  lemma TidyRowSnoc<K>(front: seq<Placed<K>>, last: Placed<K>, left: real, y: real, f: real, lh: real, cx: real)
    requires TidyRow(front, left, y, f, lh) && last.node.y == y
    requires cx == left + SlotsWidth(front) + last.node.width / 2.0 && Tidy(last, cx, f, lh)
    ensures TidyRow(front + [last], left, y, f, lh)
    ensures SlotsWidth(front + [last]) == SlotsWidth(front) + last.node.width
  {
    assert (front + [last])[..|front|] == front;
  }

  /** The placement of `positionSubtree` is tidy. */
  lemma {:induction false} PlaceTidy<K, D>(g: Graph<K, D>, rank: map<K, nat>, d: Dims, k: K, cx: real, y: real, ref: nat)
    requires Ranked(g, rank) && k in rank
    ensures Tidy(Place(g, rank, d, k, cx, y, ref).0, cx, Footprint(d), d.levelHeight)
    decreases rank[k], 1
  {
    var w := SubtreeWidth(g, rank, d, k);
    RowTidy(g, rank, d, g.children[k], rank[k], |g.children[k]|, cx - w / 2.0, y + d.levelHeight, ref + 1);
    PlaceTidyStep(g, rank, d, k, cx, y, ref);
  }

  /** The step of `PlaceTidy`: a tidy row of children makes the subtree tidy. */
  lemma PlaceTidyStep<K, D>(g: Graph<K, D>, rank: map<K, nat>, d: Dims, k: K, cx: real, y: real, ref: nat)
    requires Ranked(g, rank) && k in rank
    requires var w := SubtreeWidth(g, rank, d, k);
      var row := PlaceRow(g, rank, d, g.children[k], rank[k], |g.children[k]|, cx - w / 2.0, y + d.levelHeight, ref + 1);
      TidyRow(row.0, cx - w / 2.0, y + d.levelHeight, Footprint(d), d.levelHeight)
    ensures Tidy(Place(g, rank, d, k, cx, y, ref).0, cx, Footprint(d), d.levelHeight)
  {
    var t := Place(g, rank, d, k, cx, y, ref).0;
    var cs := g.children[k];
    var w := SubtreeWidth(g, rank, d, k);
    PlaceShape(g, rank, d, k, cx, y, ref);
    RowSlots(g, rank, d, cs, rank[k], |cs|, cx - w / 2.0, y + d.levelHeight, ref + 1);
    if cs != [] {
      SubtreeWidthCoversChildren(g, rank, d, k);
    }
    TidyIntro(t, cx, Footprint(d), d.levelHeight);
  }

  /** `Place` unfolded once: its node and its row of children. */
  lemma PlaceShape<K, D>(g: Graph<K, D>, rank: map<K, nat>, d: Dims, k: K, cx: real, y: real, ref: nat)
    requires Ranked(g, rank) && k in rank
    ensures var t := Place(g, rank, d, k, cx, y, ref).0;
      var w := SubtreeWidth(g, rank, d, k);
      var kids := PlaceRow(g, rank, d, g.children[k], rank[k], |g.children[k]|, cx - w / 2.0, y + d.levelHeight, ref + 1).0;
      && t.kids == kids && t.node.width == w && t.node.y == y
      && t.node.x == (if kids == [] then cx else (kids[0].node.x + kids[|kids| - 1].node.x) / 2.0)
  {
  }

  /** The serial after a subtree is the serial after its children's row. */
  lemma PlaceNext<K, D>(g: Graph<K, D>, rank: map<K, nat>, d: Dims, k: K, cx: real, y: real, ref: nat)
    requires Ranked(g, rank) && k in rank
    ensures var w := SubtreeWidth(g, rank, d, k);
      Place(g, rank, d, k, cx, y, ref).1
      == PlaceRow(g, rank, d, g.children[k], rank[k], |g.children[k]|, cx - w / 2.0, y + d.levelHeight, ref + 1).1
  {
  }

  /** `PlaceRow` unfolded once: the shorter row, then the last id's subtree in the next slot. */
  lemma RowShape<K, D>(g: Graph<K, D>, rank: map<K, nat>, d: Dims, ids: seq<K>, bound: nat, n: nat,
                       left: real, y: real, ref: nat)
    requires Ranked(g, rank) && RowBelow(rank, ids, bound) && 0 < n <= |ids|
    ensures var r := PlaceRow(g, rank, d, ids, bound, n, left, y, ref);
      var p := PlaceRow(g, rank, d, ids, bound, n - 1, left, y, ref);
      var w := SubtreeWidth(g, rank, d, ids[n - 1]);
      var t := Place(g, rank, d, ids[n - 1], p.2 + w / 2.0, y, p.1);
      && r.0 == p.0 + [t.0] && r.1 == t.1 && r.2 == p.2 + w
      && r.0[..n - 1] == p.0 && r.0[n - 1] == t.0
  {
    var r := PlaceRow(g, rank, d, ids, bound, n, left, y, ref);
    var p := PlaceRow(g, rank, d, ids, bound, n - 1, left, y, ref);
    assert r.0[..n - 1] == p.0;
  }

  /** The `i`-th subtree of a row is the `i`-th id's, at the row's height. */
  lemma {:induction false} RowIds<K, D>(g: Graph<K, D>, rank: map<K, nat>, d: Dims, ids: seq<K>, bound: nat, n: nat,
                                        left: real, y: real, ref: nat)
    requires Ranked(g, rank) && RowBelow(rank, ids, bound) && n <= |ids|
    ensures var r := PlaceRow(g, rank, d, ids, bound, n, left, y, ref).0;
      forall i | 0 <= i < n :: r[i].node.id == ids[i] && r[i].node.y == y
    decreases n
  {
    if n > 0 {
      RowIds(g, rank, d, ids, bound, n - 1, left, y, ref);
      RowShape(g, rank, d, ids, bound, n, left, y, ref);
    }
  }

  /** A subtree from its children's row: the node re-centred over its first and last child. */
  lemma PlaceFromRow<K, D>(g: Graph<K, D>, rank: map<K, nat>, d: Dims, k: K, cx: real, y: real, ref: nat,
                           kids: seq<Placed<K>>, next: nat, right: real)
    requires Ranked(g, rank) && k in rank
    requires (kids, next, right) == PlaceRow(g, rank, d, g.children[k], rank[k], |g.children[k]|,
                                             cx - SubtreeWidth(g, rank, d, k) / 2.0, y + d.levelHeight, ref + 1)
    ensures var x := if |kids| > 0 then (kids[0].node.x + kids[|kids| - 1].node.x) / 2.0 else cx;
      (Placed(TreeNode(ref, k, x, y, SubtreeWidth(g, rank, d, k)), kids), next) == Place(g, rank, d, k, cx, y, ref)
  {
  }

  /** One more id placed in the next slot extends the row by its subtree. */
  lemma RowStep<K, D>(g: Graph<K, D>, rank: map<K, nat>, d: Dims, ids: seq<K>, bound: nat, i: nat,
                      left: real, y: real, ref: nat, prev: seq<Placed<K>>, mid: nat, x: real, t: Placed<K>, next: nat)
    requires Ranked(g, rank) && RowBelow(rank, ids, bound) && i < |ids|
    requires (prev, mid, x) == PlaceRow(g, rank, d, ids, bound, i, left, y, ref)
    requires (t, next) == Place(g, rank, d, ids[i], x + SubtreeWidth(g, rank, d, ids[i]) / 2.0, y, mid)
    ensures (prev + [t], next, x + SubtreeWidth(g, rank, d, ids[i])) == PlaceRow(g, rank, d, ids, bound, i + 1, left, y, ref)
  {
  }

  /** What the pass has appended after one more subtree of a row and the link to it. */
  lemma RowAppend<K>(parent: nat, nodes: seq<TreeNode<K>>, links: seq<Edge>, front: seq<Placed<K>>, last: Placed<K>)
    ensures nodes + RowNodes(front) + Nodes(last) == nodes + RowNodes(front + [last])
    ensures links + RowLinks(parent, front) + Links(last) + [Edge(parent, last.node.ref)]
         == links + RowLinks(parent, front + [last])
  {
    RowSnoc(parent, front, last);
    assert links + RowLinks(parent, front) + Links(last) + [Edge(parent, last.node.ref)]
        == links + (RowLinks(parent, front) + Links(last) + [Edge(parent, last.node.ref)]);
  }

  /** A row with one more subtree at its end: its nodes, then its links and the link to it. */
  lemma RowSnoc<K>(parent: nat, front: seq<Placed<K>>, last: Placed<K>)
    ensures RowNodes(front + [last]) == RowNodes(front) + Nodes(last)
    ensures RowLinks(parent, front + [last]) == RowLinks(parent, front) + Links(last) + [Edge(parent, last.node.ref)]
  {
    assert (front + [last])[..|front|] == front;
  }

  /** The nodes of a row with one more subtree at its end. */
  lemma RowNodesSnoc<K>(front: seq<Placed<K>>, last: Placed<K>)
    ensures RowNodes(front + [last]) == RowNodes(front) + Nodes(last)
  {
    assert (front + [last])[..|front|] == front;
  }

  /** The nodes with id `v` of a row with one more subtree at its end. */
  lemma CountIdRowSnoc<K>(front: seq<Placed<K>>, last: Placed<K>, v: K)
    ensures CountId(RowNodes(front + [last]), v) == CountId(RowNodes(front), v) + CountId(Nodes(last), v)
  {
    assert (front + [last])[..|front|] == front;
    CountIdConcat(RowNodes(front), Nodes(last), v);
  }

  /** The slots of a placed row add up to the row width and end at its right edge. */
  lemma {:induction false} RowSlots<K, D>(g: Graph<K, D>, rank: map<K, nat>, d: Dims, ids: seq<K>, bound: nat, n: nat,
                                          left: real, y: real, ref: nat)
    requires Ranked(g, rank) && RowBelow(rank, ids, bound) && n <= |ids|
    ensures var r := PlaceRow(g, rank, d, ids, bound, n, left, y, ref);
      SlotsWidth(r.0) == RowWidth(g, rank, d, ids, bound, n) && r.2 == left + SlotsWidth(r.0)
    decreases n
  {
    if n > 0 {
      var p := PlaceRow(g, rank, d, ids, bound, n - 1, left, y, ref);
      var w := SubtreeWidth(g, rank, d, ids[n - 1]);
      var t := Place(g, rank, d, ids[n - 1], p.2 + w / 2.0, y, p.1);
      var r := PlaceRow(g, rank, d, ids, bound, n, left, y, ref);
      RowSlots(g, rank, d, ids, bound, n - 1, left, y, ref);
      RowShape(g, rank, d, ids, bound, n, left, y, ref);
      assert r.0[..n - 1] == p.0;
    }
  }

  /** A row placed by `PlaceRow` is tidy. */
  lemma {:induction false} RowTidy<K, D>(g: Graph<K, D>, rank: map<K, nat>, d: Dims, ids: seq<K>, bound: nat, n: nat,
                                         left: real, y: real, ref: nat)
    requires Ranked(g, rank) && RowBelow(rank, ids, bound) && n <= |ids|
    ensures TidyRow(PlaceRow(g, rank, d, ids, bound, n, left, y, ref).0, left, y, Footprint(d), d.levelHeight)
    decreases bound, 0, n
  {
    if n > 0 {
      var p := PlaceRow(g, rank, d, ids, bound, n - 1, left, y, ref);
      RowTidy(g, rank, d, ids, bound, n - 1, left, y, ref);
      PlaceTidy(g, rank, d, ids[n - 1], p.2 + SubtreeWidth(g, rank, d, ids[n - 1]) / 2.0, y, p.1);
      RowTidyStep(g, rank, d, ids, bound, n, left, y, ref);
    }
  }

  /** The step of `RowTidy`: the shorter row and the last subtree tidy make the row tidy. */
  lemma RowTidyStep<K, D>(g: Graph<K, D>, rank: map<K, nat>, d: Dims, ids: seq<K>, bound: nat, n: nat,
                          left: real, y: real, ref: nat)
    requires Ranked(g, rank) && RowBelow(rank, ids, bound) && 0 < n <= |ids|
    requires var p := PlaceRow(g, rank, d, ids, bound, n - 1, left, y, ref);
      && TidyRow(p.0, left, y, Footprint(d), d.levelHeight)
      && var cx := p.2 + SubtreeWidth(g, rank, d, ids[n - 1]) / 2.0;
      Tidy(Place(g, rank, d, ids[n - 1], cx, y, p.1).0, cx, Footprint(d), d.levelHeight)
    ensures TidyRow(PlaceRow(g, rank, d, ids, bound, n, left, y, ref).0, left, y, Footprint(d), d.levelHeight)
  {
    var p := PlaceRow(g, rank, d, ids, bound, n - 1, left, y, ref);
    var w := SubtreeWidth(g, rank, d, ids[n - 1]);
    var t := Place(g, rank, d, ids[n - 1], p.2 + w / 2.0, y, p.1);
    assert PlaceRow(g, rank, d, ids, bound, n, left, y, ref).0 == p.0 + [t.0] by {
      RowShape(g, rank, d, ids, bound, n, left, y, ref);
    }
    assert p.2 == left + SlotsWidth(p.0) by {
      RowSlots(g, rank, d, ids, bound, n - 1, left, y, ref);
    }
    TidyRowSnoc(p.0, t.0, left, y, Footprint(d), d.levelHeight, p.2 + w / 2.0);
  }

  /** Slots have non-negative widths when the footprint is non-negative. */
  lemma {:induction false} TidyRowWidth<K>(ts: seq<Placed<K>>, left: real, y: real, f: real, lh: real)
    requires TidyRow(ts, left, y, f, lh) && f >= 0.0
    ensures SlotsWidth(ts) >= 0.0
    decreases ts
  {
    if ts != [] {
      TidyRowWidth(ts[..|ts| - 1], left, y, f, lh);
    }
  }

  /**
   * Every node of a tidy subtree of width `W` placed at `cx` has its centre in
   * `[cx - W/2 + f/2, cx + W/2 - f/2]`: inside its slot, half a footprint from either edge.
   */
  lemma {:induction false} TidyWithin<K>(t: Placed<K>, cx: real, f: real, lh: real)
    requires Tidy(t, cx, f, lh) && f >= 0.0
    ensures WithinX(Nodes(t), cx - t.node.width / 2.0 + f / 2.0, cx + t.node.width / 2.0 - f / 2.0)
    decreases t, 1
  {
    var w := t.node.width;
    var lo, hi := cx - w / 2.0 + f / 2.0, cx + w / 2.0 - f / 2.0;
    var left := cx - w / 2.0;
    TidyRowWithin(t.kids, left, t.node.y + lh, f, lh);
    TidyRowWidth(t.kids, left, t.node.y + lh, f, lh);
    WithinXWiden(RowNodes(t.kids), left + f / 2.0, left + SlotsWidth(t.kids) - f / 2.0, lo, hi);
    WithinXConcat(RowNodes(t.kids), [t.node], lo, hi);
  }

  /**
   * A tidy row keeps every node in `[left + f/2, left + S - f/2]`, `S` the total of its
   * slots, and so do its first and last subtrees' own nodes.
   */
  lemma {:induction false} TidyRowWithin<K>(ts: seq<Placed<K>>, left: real, y: real, f: real, lh: real)
    requires TidyRow(ts, left, y, f, lh) && f >= 0.0
    ensures WithinX(RowNodes(ts), left + f / 2.0, left + SlotsWidth(ts) - f / 2.0)
    ensures ts != [] ==> left + f / 2.0 <= ts[0].node.x <= left + SlotsWidth(ts) - f / 2.0
    ensures ts != [] ==> left + f / 2.0 <= ts[|ts| - 1].node.x <= left + SlotsWidth(ts) - f / 2.0
    decreases ts, 0
  {
    if ts != [] {
      var front, last := ts[..|ts| - 1], ts[|ts| - 1];
      var s0, s := SlotsWidth(front), SlotsWidth(ts);
      var lo, hi := left + f / 2.0, left + s - f / 2.0;
      TidyRowWithin(front, left, y, f, lh);
      TidyRowWidth(front, left, y, f, lh);
      var cx := left + s0 + last.node.width / 2.0;
      TidyWithin(last, cx, f, lh);
      assert cx - last.node.width / 2.0 + f / 2.0 == left + s0 + f / 2.0;
      assert cx + last.node.width / 2.0 - f / 2.0 == hi;
      WithinXWiden(Nodes(last), left + s0 + f / 2.0, hi, lo, hi);
      WithinXWiden(RowNodes(front), lo, left + s0 - f / 2.0, lo, hi);
      WithinXConcat(RowNodes(front), Nodes(last), lo, hi);
      assert Nodes(last)[|Nodes(last)| - 1] == last.node;
      if front != [] {
        assert ts[0] == front[0];
      }
    }
  }

  /**
   * Siblings do not overlap: every node of the `j`-th subtree of a tidy row lies at least
   * one footprint to the right of every node of the subtrees before it.
   */
  lemma {:induction false} TidySiblingsApart<K>(ts: seq<Placed<K>>, left: real, y: real, f: real, lh: real, j: nat)
    requires TidyRow(ts, left, y, f, lh) && f >= 0.0 && j < |ts|
    ensures forall a, b | a in RowNodes(ts[..j]) && b in Nodes(ts[j]) :: b.x - a.x >= f
    decreases ts
  {
    var front, last := ts[..|ts| - 1], ts[|ts| - 1];
    if j < |ts| - 1 {
      TidySiblingsApart(front, left, y, f, lh, j);
      assert front[..j] == ts[..j] && front[j] == ts[j];
    } else {
      assert ts[..j] == front && ts[j] == last;
      var s0 := SlotsWidth(front);
      TidyRowWithin(front, left, y, f, lh);
      TidyWithin(last, left + s0 + last.node.width / 2.0, f, lh);
      forall a, b | a in RowNodes(front) && b in Nodes(last)
        ensures b.x - a.x >= f
      {
        var ia :| 0 <= ia < |RowNodes(front)| && RowNodes(front)[ia] == a;
        var ib :| 0 <= ib < |Nodes(last)| && Nodes(last)[ib] == b;
      }
    }
  }

  /**
   * Every node of a subtree placed at `cx` lies inside the slot of width `W` (its subtree
   * width) centred at `cx`, at least half a footprint in from either edge.
   */
  lemma PlaceWithin<K, D>(g: Graph<K, D>, rank: map<K, nat>, d: Dims, k: K, cx: real, y: real, ref: nat)
    requires Ranked(g, rank) && k in rank && Footprint(d) >= 0.0
    ensures var w := SubtreeWidth(g, rank, d, k);
      WithinX(Nodes(Place(g, rank, d, k, cx, y, ref).0), cx - w / 2.0 + Footprint(d) / 2.0, cx + w / 2.0 - Footprint(d) / 2.0)
  {
    PlaceShape(g, rank, d, k, cx, y, ref);
    PlaceTidy(g, rank, d, k, cx, y, ref);
    TidyWithin(Place(g, rank, d, k, cx, y, ref).0, cx, Footprint(d), d.levelHeight);
  }

  /**
   * Children's subtrees do not overlap: every node under the `j`-th child lies at least one
   * footprint to the right of every node under the children before it.
   */
  lemma PlaceSiblingsApart<K, D>(g: Graph<K, D>, rank: map<K, nat>, d: Dims, k: K, cx: real, y: real, ref: nat, j: nat)
    requires Ranked(g, rank) && k in rank && Footprint(d) >= 0.0 && j < |g.children[k]|
    ensures var kids := Place(g, rank, d, k, cx, y, ref).0.kids;
      forall a, b | a in RowNodes(kids[..j]) && b in Nodes(kids[j]) :: b.x - a.x >= Footprint(d)
  {
    var t := Place(g, rank, d, k, cx, y, ref).0;
    PlaceTidy(g, rank, d, k, cx, y, ref);
    TidySiblingsApart(t.kids, cx - t.node.width / 2.0, t.node.y + d.levelHeight, Footprint(d), d.levelHeight, j);
  }

  /**
   * Children are the node's children in link order, one level lower; a parent with children
   * sits between its first and last child, straight above it when there is only one.
   */
  lemma PlaceChildren<K, D>(g: Graph<K, D>, rank: map<K, nat>, d: Dims, k: K, cx: real, y: real, ref: nat)
    requires Ranked(g, rank) && k in rank && Footprint(d) >= 0.0
    ensures var t := Place(g, rank, d, k, cx, y, ref).0;
      && (forall i | 0 <= i < |t.kids| :: t.kids[i].node.id == g.children[k][i] && t.kids[i].node.y == y + d.levelHeight)
      && (t.kids == [] ==> t.node.x == cx)
      && (t.kids != [] ==> t.kids[0].node.x <= t.node.x <= t.kids[|t.kids| - 1].node.x)
      && (|t.kids| == 1 ==> t.node.x == t.kids[0].node.x)
  {
    var t := Place(g, rank, d, k, cx, y, ref).0;
    var w := SubtreeWidth(g, rank, d, k);
    PlaceShape(g, rank, d, k, cx, y, ref);
    RowIds(g, rank, d, g.children[k], rank[k], |g.children[k]|, cx - w / 2.0, y + d.levelHeight, ref + 1);
    PlaceTidy(g, rank, d, k, cx, y, ref);
    TidyBetween(t, cx, Footprint(d), d.levelHeight);
  }

  /** A tidy subtree's node lies between its first and last child, at `cx` when a leaf. */
  lemma TidyBetween<K>(t: Placed<K>, cx: real, f: real, lh: real)
    requires Tidy(t, cx, f, lh) && f >= 0.0
    ensures t.kids == [] ==> t.node.x == cx
    ensures t.kids != [] ==> t.kids[0].node.x <= t.node.x <= t.kids[|t.kids| - 1].node.x
    ensures |t.kids| == 1 ==> t.node.x == t.kids[0].node.x
  {
    var n := |t.kids|;
    if n >= 2 {
      TidySiblingsApart(t.kids, cx - t.node.width / 2.0, t.node.y + lh, f, lh, n - 1);
      assert t.kids[..n - 1][0] == t.kids[0];
      RowNodesHas(t.kids[..n - 1], 0);
      assert t.kids[n - 1].node in Nodes(t.kids[n - 1]);
    }
  }

  /** The own node of each subtree of a row is among the row's nodes. */
  lemma {:induction false} RowNodesHas<K>(ts: seq<Placed<K>>, i: nat)
    requires i < |ts|
    ensures ts[i].node in RowNodes(ts)
    decreases |ts|
  {
    var front := ts[..|ts| - 1];
    if i < |ts| - 1 {
      RowNodesHas(front, i);
      assert front[i] == ts[i];
    } else {
      assert Nodes(ts[i])[|Nodes(ts[i])| - 1] == ts[i].node;
    }
  }

  function Refs<K>(ns: seq<TreeNode<K>>): (r: seq<nat>)
    ensures |r| == |ns| && forall i | 0 <= i < |ns| :: r[i] == ns[i].ref
  {
    if ns == [] then [] else Refs(ns[..|ns| - 1]) + [ns[|ns| - 1].ref]
  }

  function Targets(es: seq<Edge>): (r: seq<nat>)
    ensures |r| == |es| && forall i | 0 <= i < |es| :: r[i] == es[i].target
  {
    if es == [] then [] else Targets(es[..|es| - 1]) + [es[|es| - 1].target]
  }

  lemma RefsConcat<K>(a: seq<TreeNode<K>>, b: seq<TreeNode<K>>)
    ensures Refs(a + b) == Refs(a) + Refs(b)
  {
  }

  lemma TargetsConcat(a: seq<Edge>, b: seq<Edge>)
    ensures Targets(a + b) == Targets(a) + Targets(b)
  {
  }

  /**
   * One link per placed child: the links of a subtree point, in order, at every node it
   * emits except its own, and each link to a child starts at that child's parent.
   */
  lemma {:induction false} LinksPerChild<K>(t: Placed<K>)
    ensures Targets(Links(t)) == Refs(RowNodes(t.kids))
    ensures |Links(t)| + 1 == |Nodes(t)|
    decreases t, 1
  {
    RowLinksPerChild(t.node.ref, t.kids);
  }

  lemma {:induction false} RowLinksPerChild<K>(parent: nat, ts: seq<Placed<K>>)
    ensures Targets(RowLinks(parent, ts)) == Refs(RowNodes(ts))
    decreases ts, 0
  {
    if ts != [] {
      var front, last := ts[..|ts| - 1], ts[|ts| - 1];
      RowLinksPerChild(parent, front);
      LinksPerChild(last);
      calc {
        Targets(RowLinks(parent, ts));
        { TargetsConcat(RowLinks(parent, front) + Links(last), [Edge(parent, last.node.ref)]); }
        Targets(RowLinks(parent, front) + Links(last)) + [last.node.ref];
        { TargetsConcat(RowLinks(parent, front), Links(last)); }
        Refs(RowNodes(front)) + Refs(RowNodes(last.kids)) + [last.node.ref];
        { RefsConcat(RowNodes(last.kids), [last.node]); }
        Refs(RowNodes(front)) + Refs(Nodes(last));
        { RefsConcat(RowNodes(front), Nodes(last)); }
        Refs(RowNodes(ts));
      }
    }
  }

  /** Each child of a row is linked from the row's parent. */
  lemma {:induction false} RowLinksToEachChild<K>(parent: nat, ts: seq<Placed<K>>, i: nat)
    requires i < |ts|
    ensures Edge(parent, ts[i].node.ref) in RowLinks(parent, ts)
    decreases |ts|
  {
    if i < |ts| - 1 {
      var front := ts[..|ts| - 1];
      RowLinksToEachChild(parent, front, i);
      assert front[i] == ts[i];
    }
  }

  /** The serials of the nodes lie in `[lo, hi)`. */
  predicate RefsIn<K>(ns: seq<TreeNode<K>>, lo: nat, hi: nat) {
    forall i | 0 <= i < |ns| :: lo <= ns[i].ref < hi
  }

  /** No two nodes share a serial: every node is a distinct object. */
  predicate DistinctRefs<K>(ns: seq<TreeNode<K>>) {
    forall i, j | 0 <= i < j < |ns| :: ns[i].ref != ns[j].ref
  }

  /** Two runs of serials from disjoint ranges join into one without a repeated serial. */
  lemma DistinctRefsConcat<K>(a: seq<TreeNode<K>>, b: seq<TreeNode<K>>, lo: nat, hi: nat, alo: nat, ahi: nat, blo: nat, bhi: nat)
    requires RefsIn(a, alo, ahi) && RefsIn(b, blo, bhi) && DistinctRefs(a) && DistinctRefs(b)
    requires ahi <= blo || bhi <= alo
    requires lo <= alo && lo <= blo && ahi <= hi && bhi <= hi
    ensures RefsIn(a + b, lo, hi) && DistinctRefs(a + b)
  {
    forall i, j | 0 <= i < j < |a + b|
      ensures (a + b)[i].ref != (a + b)[j].ref
    {
      if j < |a| {
        assert (a + b)[i] == a[i] && (a + b)[j] == a[j];
      } else if i < |a| {
        assert (a + b)[i] == a[i] && (a + b)[j] == b[j - |a|];
      } else {
        assert (a + b)[i] == b[i - |a|] && (a + b)[j] == b[j - |a|];
      }
    }
  }

  /** The nodes carry the serials `lo` up to `hi`, one each, none repeated. */
  predicate RefsRun<K>(ns: seq<TreeNode<K>>, lo: nat, hi: nat) {
    hi == lo + |ns| && RefsIn(ns, lo, hi) && DistinctRefs(ns)
  }

  /** A node whose serial precedes the run of its children's subtrees. */
  lemma RefsRunParent<K>(t: Placed<K>, next: nat)
    requires RefsRun(RowNodes(t.kids), t.node.ref + 1, next)
    ensures RefsRun(Nodes(t), t.node.ref, next)
  {
    DistinctRefsConcat(RowNodes(t.kids), [t.node], t.node.ref, next, t.node.ref + 1, next, t.node.ref, t.node.ref + 1);
  }

  /** A row's run followed by the run of one more subtree. */
  lemma RefsRunSnoc<K>(front: seq<Placed<K>>, last: Placed<K>, lo: nat, mid: nat, hi: nat)
    requires RefsRun(RowNodes(front), lo, mid) && RefsRun(Nodes(last), mid, hi)
    ensures RefsRun(RowNodes(front + [last]), lo, hi)
  {
    RowNodesSnoc(front, last);
    DistinctRefsConcat(RowNodes(front), Nodes(last), lo, hi, lo, mid, mid, hi);
  }

  /**
   * A subtree placed when the next serial is `ref` allocates exactly one fresh object per
   * node it emits: the serials are distinct and are `ref` up to the next serial.
   */
  lemma {:induction false} PlaceRefs<K, D>(g: Graph<K, D>, rank: map<K, nat>, d: Dims, k: K, cx: real, y: real, ref: nat)
    requires Ranked(g, rank) && k in rank
    ensures var r := Place(g, rank, d, k, cx, y, ref);
      RefsRun(Nodes(r.0), ref, r.1)
    decreases rank[k], 1
  {
    var r := Place(g, rank, d, k, cx, y, ref);
    var w := SubtreeWidth(g, rank, d, k);
    var cs := g.children[k];
    var row := PlaceRow(g, rank, d, cs, rank[k], |cs|, cx - w / 2.0, y + d.levelHeight, ref + 1);
    RowRefs(g, rank, d, cs, rank[k], |cs|, cx - w / 2.0, y + d.levelHeight, ref + 1);
    PlaceShape(g, rank, d, k, cx, y, ref);
    PlaceNext(g, rank, d, k, cx, y, ref);
    RefsRunParent(r.0, r.1);
  }

  lemma {:induction false} RowRefs<K, D>(g: Graph<K, D>, rank: map<K, nat>, d: Dims, ids: seq<K>, bound: nat, n: nat,
                                         left: real, y: real, ref: nat)
    requires Ranked(g, rank) && RowBelow(rank, ids, bound) && n <= |ids|
    ensures var r := PlaceRow(g, rank, d, ids, bound, n, left, y, ref);
      RefsRun(RowNodes(r.0), ref, r.1)
    decreases bound, 0, n
  {
    if n == 0 {
      assert RowNodes<K>([]) == [];
    } else {
      var p := PlaceRow(g, rank, d, ids, bound, n - 1, left, y, ref);
      RowRefs(g, rank, d, ids, bound, n - 1, left, y, ref);
      PlaceRefs(g, rank, d, ids[n - 1], p.2 + SubtreeWidth(g, rank, d, ids[n - 1]) / 2.0, y, p.1);
      RowRefsStep(g, rank, d, ids, bound, n, left, y, ref);
    }
  }

  /** The step of `RowRefs`: the shorter row's run followed by the last subtree's. */
  lemma RowRefsStep<K, D>(g: Graph<K, D>, rank: map<K, nat>, d: Dims, ids: seq<K>, bound: nat, n: nat,
                          left: real, y: real, ref: nat)
    requires Ranked(g, rank) && RowBelow(rank, ids, bound) && 0 < n <= |ids|
    requires var p := PlaceRow(g, rank, d, ids, bound, n - 1, left, y, ref);
      && RefsRun(RowNodes(p.0), ref, p.1)
      && var t := Place(g, rank, d, ids[n - 1], p.2 + SubtreeWidth(g, rank, d, ids[n - 1]) / 2.0, y, p.1);
      RefsRun(Nodes(t.0), p.1, t.1)
    ensures var r := PlaceRow(g, rank, d, ids, bound, n, left, y, ref);
      RefsRun(RowNodes(r.0), ref, r.1)
  {
    var p := PlaceRow(g, rank, d, ids, bound, n - 1, left, y, ref);
    var t := Place(g, rank, d, ids[n - 1], p.2 + SubtreeWidth(g, rank, d, ids[n - 1]) / 2.0, y, p.1);
    RowShape(g, rank, d, ids, bound, n, left, y, ref);
    RefsRunSnoc(p.0, t.0, ref, p.1, t.1);
  }

  /** The number of nodes with id `v`. */
  function CountId<K(==)>(ns: seq<TreeNode<K>>, v: K): nat {
    if ns == [] then 0 else CountId(ns[..|ns| - 1], v) + (if ns[|ns| - 1].id == v then 1 else 0)
  }

  lemma {:induction false} CountIdConcat<K>(a: seq<TreeNode<K>>, b: seq<TreeNode<K>>, v: K)
    ensures CountId(a + b, v) == CountId(a, v) + CountId(b, v)
    decreases |b|
  {
    if b != [] {
      assert (a + b)[..|a + b| - 1] == a + b[..|b| - 1];
      CountIdConcat(a, b[..|b| - 1], v);
    } else {
      assert a + b == a;
    }
  }

  /**
   * The number of downward paths from `u` to `v` following the children lists (a child listed
   * twice under a parent counts twice); 1 for the empty path when `u == v`.
   */
  ghost function PathCount<K, D>(g: Graph<K, D>, rank: map<K, nat>, u: K, v: K): nat
    requires Ranked(g, rank) && u in rank
    decreases rank[u], 1
  {
    (if u == v then 1 else 0) + RowPathCount(g, rank, g.children[u], rank[u], |g.children[u]|, v)
  }

  /** The paths to `v` from the first `n` ids of a row. */
  ghost function RowPathCount<K, D>(g: Graph<K, D>, rank: map<K, nat>, ids: seq<K>, bound: nat, n: nat, v: K): nat
    requires Ranked(g, rank) && RowBelow(rank, ids, bound) && n <= |ids|
    decreases bound, 0, n
  {
    if n == 0 then 0 else RowPathCount(g, rank, ids, bound, n - 1, v) + PathCount(g, rank, ids[n - 1], v)
  }

  /**
   * A subtree emits a node for `v` once per path from its root to `v`: a node with several
   * parents in the subtree is laid out once under each of them, and a node the subtree does
   * not reach is not emitted.
   */
  lemma {:induction false} PlaceCount<K, D>(g: Graph<K, D>, rank: map<K, nat>, d: Dims, k: K, cx: real, y: real, ref: nat, v: K)
    requires Ranked(g, rank) && k in rank
    ensures CountId(Nodes(Place(g, rank, d, k, cx, y, ref).0), v) == PathCount(g, rank, k, v)
    decreases rank[k], 1
  {
    var t := Place(g, rank, d, k, cx, y, ref).0;
    var w := SubtreeWidth(g, rank, d, k);
    var cs := g.children[k];
    PlaceShape(g, rank, d, k, cx, y, ref);
    RowCount(g, rank, d, cs, rank[k], |cs|, cx - w / 2.0, y + d.levelHeight, ref + 1, v);
    CountIdOfNodes(t, v);
  }

  /** The nodes of a subtree with id `v`: those of its children's subtrees, and its own node. */
  lemma CountIdOfNodes<K>(t: Placed<K>, v: K)
    ensures CountId(Nodes(t), v) == CountId(RowNodes(t.kids), v) + if t.node.id == v then 1 else 0
  {
    CountIdConcat(RowNodes(t.kids), [t.node], v);
    assert [t.node][..0] == [];
  }

  lemma {:induction false} RowCount<K, D>(g: Graph<K, D>, rank: map<K, nat>, d: Dims, ids: seq<K>, bound: nat, n: nat,
                                          left: real, y: real, ref: nat, v: K)
    requires Ranked(g, rank) && RowBelow(rank, ids, bound) && n <= |ids|
    ensures CountId(RowNodes(PlaceRow(g, rank, d, ids, bound, n, left, y, ref).0), v) == RowPathCount(g, rank, ids, bound, n, v)
    decreases bound, 0, n
  {
    if n == 0 {
      assert RowNodes<K>([]) == [];
    } else {
      var p := PlaceRow(g, rank, d, ids, bound, n - 1, left, y, ref);
      RowCount(g, rank, d, ids, bound, n - 1, left, y, ref, v);
      PlaceCount(g, rank, d, ids[n - 1], p.2 + SubtreeWidth(g, rank, d, ids[n - 1]) / 2.0, y, p.1, v);
      RowCountStep(g, rank, d, ids, bound, n, left, y, ref, v);
    }
  }

  /** The step of `RowCount`: the shorter row's count plus the last subtree's. */
  lemma RowCountStep<K, D>(g: Graph<K, D>, rank: map<K, nat>, d: Dims, ids: seq<K>, bound: nat, n: nat,
                           left: real, y: real, ref: nat, v: K)
    requires Ranked(g, rank) && RowBelow(rank, ids, bound) && 0 < n <= |ids|
    requires var p := PlaceRow(g, rank, d, ids, bound, n - 1, left, y, ref);
      && CountId(RowNodes(p.0), v) == RowPathCount(g, rank, ids, bound, n - 1, v)
      && var t := Place(g, rank, d, ids[n - 1], p.2 + SubtreeWidth(g, rank, d, ids[n - 1]) / 2.0, y, p.1);
      CountId(Nodes(t.0), v) == PathCount(g, rank, ids[n - 1], v)
    ensures CountId(RowNodes(PlaceRow(g, rank, d, ids, bound, n, left, y, ref).0), v) == RowPathCount(g, rank, ids, bound, n, v)
  {
    var p := PlaceRow(g, rank, d, ids, bound, n - 1, left, y, ref);
    var t := Place(g, rank, d, ids[n - 1], p.2 + SubtreeWidth(g, rank, d, ids[n - 1]) / 2.0, y, p.1);
    RowShape(g, rank, d, ids, bound, n, left, y, ref);
    CountIdRowSnoc(p.0, t.0, v);
  }

  /** `v` is nobody's child among the ranked nodes. */
  ghost predicate NoParentIn<K, D>(g: Graph<K, D>, rank: map<K, nat>, v: K) {
    forall k | k in rank && k in g.children :: v !in g.children[k]
  }

  /** Only the node itself reaches a node that is nobody's child. */
  lemma {:induction false} PathCountToOrphan<K, D>(g: Graph<K, D>, rank: map<K, nat>, u: K, v: K)
    requires Ranked(g, rank) && u in rank && NoParentIn(g, rank, v)
    ensures PathCount(g, rank, u, v) == if u == v then 1 else 0
    decreases rank[u], 1
  {
    RowPathCountToOrphan(g, rank, g.children[u], rank[u], |g.children[u]|, v);
  }

  /** A row that does not list a node that is nobody's child has no path to it. */
  lemma {:induction false} RowPathCountToOrphan<K, D>(g: Graph<K, D>, rank: map<K, nat>, ids: seq<K>, bound: nat, n: nat, v: K)
    requires Ranked(g, rank) && RowBelow(rank, ids, bound) && n <= |ids| && NoParentIn(g, rank, v)
    requires forall i | 0 <= i < |ids| :: ids[i] != v
    ensures RowPathCount(g, rank, ids, bound, n, v) == 0
    decreases bound, 0, n
  {
    if n > 0 {
      RowPathCountToOrphan(g, rank, ids, bound, n - 1, v);
      PathCountToOrphan(g, rank, ids[n - 1], v);
    }
  }
}
