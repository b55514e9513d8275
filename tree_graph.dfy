/**
 * The adjacency the family-tree chart builds from its flat input
 * (components/tree/family-tree-chart.tsx): a `Map` from node id to a record with
 * `children` and `parents` lists, filled from the node list and then from the link list.
 *
 * The specification is stated here on values; the loops that build it are in `LayoutPass`.
 */
module TreeGraph {

  /** One entry of `data.nodes`: its id and the rest of the record. */
  datatype NodeRec<K, D> = NodeRec(id: K, data: D)

  /** One entry of `data.links`: from parent (`source`) to child (`target`). */
  datatype Link<K> = Link(source: K, target: K)

  /** The adjacency: map keys in insertion order, the record kept per key, and both edge lists. */
  datatype Graph<K, D> = Graph(keys: seq<K>, data: map<K, D>, children: map<K, seq<K>>, parents: map<K, seq<K>>)

  predicate NoDup<K(==)>(s: seq<K>) {
    forall i, j :: 0 <= i < j < |s| ==> s[i] != s[j]
  }

  function Ids<K(==), D>(nodes: seq<NodeRec<K, D>>): (r: seq<K>)
    ensures |r| == |nodes| && forall i :: 0 <= i < |nodes| ==> r[i] == nodes[i].id
  {
    if nodes == [] then [] else Ids(nodes[..|nodes| - 1]) + [nodes[|nodes| - 1].id]
  }

  /** The index of the first occurrence of `k` in `s`. */
  function FirstIndex<K(==)>(s: seq<K>, k: K): (i: nat)
    requires k in s
    ensures i < |s| && s[i] == k && k !in s[..i]
  {
    if s[0] == k then 0 else 1 + FirstIndex(s[1..], k)
  }

  /**
   * The keys of a JavaScript `Map` after `set` was called with each of `ids` in turn:
   * a key keeps the position of its first insertion.
   */
  function MapKeys<K(==)>(ids: seq<K>): (r: seq<K>)
    ensures forall i :: 0 <= i < |r| ==> r[i] in ids
    ensures forall i :: 0 <= i < |ids| ==> ids[i] in r
    ensures NoDup(r)
  {
    if ids == [] then []
    else
      var r := MapKeys(ids[..|ids| - 1]);
      var k := ids[|ids| - 1];
      if k in r then r else r + [k]
  }

  /** The values of the same `Map`: the record set last for each id. */
  function DataMap<K(==), D>(nodes: seq<NodeRec<K, D>>): (m: map<K, D>)
    ensures m.Keys == KeySetOf(Ids(nodes))
  {
    if nodes == [] then map[]
    else
      var front, last := nodes[..|nodes| - 1], nodes[|nodes| - 1];
      var m := DataMap(front);
      KeySetOfSnoc(Ids(front), last.id);
      m[last.id := last.data]
  }

  /** One more key in the list is one more in the set. */
  lemma KeySetOfSnoc<K>(keys: seq<K>, k: K)
    ensures KeySetOf(keys + [k]) == KeySetOf(keys) + {k}
  {
    assert forall i | 0 <= i < |keys| :: (keys + [k])[i] == keys[i];
    assert (keys + [k])[|keys|] == k;
    forall x | x in KeySetOf(keys + [k])
      ensures x in KeySetOf(keys) + {k}
    {
      var i :| 0 <= i < |keys + [k]| && (keys + [k])[i] == x;
    }
  }

  /** Map keys keep first-insertion order: a key listed earlier was first set earlier. */
  lemma {:induction false} MapKeysOrder<K>(ids: seq<K>, i: nat, j: nat)
    requires i < j < |MapKeys(ids)|
    ensures FirstIndex(ids, MapKeys(ids)[i]) < FirstIndex(ids, MapKeys(ids)[j])
  {
    var r := MapKeys(ids);
    var front := ids[..|ids| - 1];
    var r0 := MapKeys(front);
    FirstIndexOfPrefix(ids, r[i]);
    if j < |r0| {
      assert r[i] == r0[i] && r[j] == r0[j];
      MapKeysOrder(front, i, j);
      FirstIndexOfPrefix(ids, r[j]);
    } else {
      // `r[j]` is the key appended for the last id, seen for the first time there.
      assert r[j] == ids[|ids| - 1] && r[j] !in front;
      assert r[i] == r0[i] && r[i] in front;
      FirstIndexOfPrefix(ids, r[j]);
    }
  }

  /** The first occurrence of a key that is already in the front part does not move. */
  lemma FirstIndexOfPrefix<K>(ids: seq<K>, k: K)
    requires ids != [] && k in ids
    ensures k in ids[..|ids| - 1] ==> FirstIndex(ids, k) == FirstIndex(ids[..|ids| - 1], k)
    ensures k !in ids[..|ids| - 1] ==> FirstIndex(ids, k) == |ids| - 1
  {
    var front := ids[..|ids| - 1];
    var f := FirstIndex(ids, k);
    if k in front {
      var g := FirstIndex(front, k);
      assert ids[g] == k && ids[..g] == front[..g];
    } else {
      assert ids[..f] == front[..f] || f == |ids| - 1;
    }
  }

  /** The record kept for an id is the last one given for it. */
  lemma {:induction false} DataMapLastWins<K, D>(nodes: seq<NodeRec<K, D>>, i: nat)
    requires i < |nodes|
    requires forall j :: i < j < |nodes| ==> nodes[j].id != nodes[i].id
    ensures DataMap(nodes)[nodes[i].id] == nodes[i].data
  {
    if i < |nodes| - 1 {
      var front := nodes[..|nodes| - 1];
      assert front[i] == nodes[i];
      assert forall j :: i < j < |front| ==> front[j] == nodes[j];
      DataMapLastWins(front, i);
    }
  }

  /**
   * The children attached to `k`: for each link in order whose source is `k`, its target,
   * provided both ends are keys of the map; other links are dropped.
   */
  function ChildrenOf<K(==)>(links: seq<Link<K>>, keys: set<K>, k: K): (r: seq<K>)
    ensures |r| <= |links|
    ensures forall i | 0 <= i < |r| :: r[i] in keys
  {
    if links == [] then []
    else
      var front, l := links[..|links| - 1], links[|links| - 1];
      var r := ChildrenOf(front, keys, k);
      var res := r + (if l.source == k && l.source in keys && l.target in keys then [l.target] else []);
      assert forall i | 0 <= i < |r| :: res[i] == r[i];
      res
  }

  /** The parents attached to `k`: for each valid link in order whose target is `k`, its source. */
  function ParentsOf<K(==)>(links: seq<Link<K>>, keys: set<K>, k: K): (r: seq<K>)
    ensures |r| <= |links|
    ensures forall i | 0 <= i < |r| :: r[i] in keys
  {
    if links == [] then []
    else
      var front, l := links[..|links| - 1], links[|links| - 1];
      var r := ParentsOf(front, keys, k);
      var res := r + (if l.target == k && l.source in keys && l.target in keys then [l.source] else []);
      assert forall i | 0 <= i < |r| :: res[i] == r[i];
      res
  }

  /** Every child listed for `k` comes from a link from `k` to it, and `k` is a key. */
  lemma {:induction false} ChildrenFromLinks<K>(links: seq<Link<K>>, keys: set<K>, k: K, i: nat)
    requires i < |ChildrenOf(links, keys, k)|
    ensures k in keys && Link(k, ChildrenOf(links, keys, k)[i]) in links
  {
    var front, l := links[..|links| - 1], links[|links| - 1];
    assert links == front + [l];
    ChildrenSnoc(front, keys, k, l);
    if i < |ChildrenOf(front, keys, k)| {
      ChildrenFromLinks(front, keys, k, i);
    }
  }

  /** Every parent listed for `k` comes from a link from it to `k`, and `k` is a key. */
  lemma {:induction false} ParentsFromLinks<K>(links: seq<Link<K>>, keys: set<K>, k: K, i: nat)
    requires i < |ParentsOf(links, keys, k)|
    ensures k in keys && Link(ParentsOf(links, keys, k)[i], k) in links
  {
    var front, l := links[..|links| - 1], links[|links| - 1];
    assert links == front + [l];
    ParentsSnoc(front, keys, k, l);
    if i < |ParentsOf(front, keys, k)| {
      ParentsFromLinks(front, keys, k, i);
    }
  }

  /** One more link appends at most its target to the children of `k`. */
  lemma ChildrenSnoc<K>(links: seq<Link<K>>, keys: set<K>, k: K, l: Link<K>)
    ensures ChildrenOf(links + [l], keys, k)
         == ChildrenOf(links, keys, k) + (if l.source == k && l.source in keys && l.target in keys then [l.target] else [])
  {
    assert (links + [l])[..|links|] == links;
  }

  /** One more link appends at most its source to the parents of `k`. */
  lemma ParentsSnoc<K>(links: seq<Link<K>>, keys: set<K>, k: K, l: Link<K>)
    ensures ParentsOf(links + [l], keys, k)
         == ParentsOf(links, keys, k) + (if l.target == k && l.source in keys && l.target in keys then [l.source] else [])
  {
    assert (links + [l])[..|links|] == links;
  }

  /** `c` is listed among the children of `p` once per link from `p` to `c`. */
  lemma {:induction false} ChildCount<K>(links: seq<Link<K>>, keys: set<K>, p: K, c: K)
    requires p in keys && c in keys
    ensures multiset(ChildrenOf(links, keys, p))[c] == multiset(links)[Link(p, c)]
  {
    if links != [] {
      var front, l := links[..|links| - 1], links[|links| - 1];
      assert links == front + [l];
      ChildCount(front, keys, p, c);
      ChildrenSnoc(front, keys, p, l);
      var cs := if l.source == p && l.source in keys && l.target in keys then [l.target] else [];
      assert multiset(ChildrenOf(links, keys, p)) == multiset(ChildrenOf(front, keys, p)) + multiset(cs);
      assert multiset(links) == multiset(front) + multiset{l};
      assert multiset(cs)[c] == multiset{l}[Link(p, c)];
    }
  }

  /** `p` is listed among the parents of `c` once per link from `p` to `c`. */
  lemma {:induction false} ParentCount<K>(links: seq<Link<K>>, keys: set<K>, p: K, c: K)
    requires p in keys && c in keys
    ensures multiset(ParentsOf(links, keys, c))[p] == multiset(links)[Link(p, c)]
  {
    if links != [] {
      var front, l := links[..|links| - 1], links[|links| - 1];
      assert links == front + [l];
      ParentCount(front, keys, p, c);
      ParentsSnoc(front, keys, c, l);
      var ps := if l.target == c && l.source in keys && l.target in keys then [l.source] else [];
      assert multiset(ParentsOf(links, keys, c)) == multiset(ParentsOf(front, keys, c)) + multiset(ps);
      assert multiset(links) == multiset(front) + multiset{l};
      assert multiset(ps)[p] == multiset{l}[Link(p, c)];
    }
  }

  /** A link that names an id missing from the map adds nothing to either list. */
  lemma DanglingLinkDropped<K>(links: seq<Link<K>>, keys: set<K>, l: Link<K>, k: K)
    requires l.source !in keys || l.target !in keys
    ensures ChildrenOf(links + [l], keys, k) == ChildrenOf(links, keys, k)
    ensures ParentsOf(links + [l], keys, k) == ParentsOf(links, keys, k)
  {
    assert (links + [l])[..|links|] == links;
  }

  /** The set of the elements of a key list. */
  function KeySetOf<K(==)>(keys: seq<K>): (ks: set<K>)
    ensures forall k | k in ks :: k in keys
    ensures forall i | 0 <= i < |keys| :: keys[i] in ks
  {
    set k | k in keys
  }

  /** Every key with its list of children. */
  function ChildrenMap<K(==)>(links: seq<Link<K>>, ks: set<K>): (m: map<K, seq<K>>)
    ensures m.Keys == ks
  {
    map k | k in ks :: ChildrenOf(links, ks, k)
  }

  /** Every key with its list of parents. */
  function ParentsMap<K(==)>(links: seq<Link<K>>, ks: set<K>): (m: map<K, seq<K>>)
    ensures m.Keys == ks
  {
    map k | k in ks :: ParentsOf(links, ks, k)
  }

  /** Every key with an empty list, as each entry starts. */
  function EmptyLists<K(==)>(ks: set<K>): (m: map<K, seq<K>>)
    ensures m.Keys == ks && forall k | k in m :: m[k] == []
  {
    map k | k in ks :: []
  }

  /** The adjacency the chart builds from its input. */
  function GraphOf<K(==), D>(nodes: seq<NodeRec<K, D>>, links: seq<Link<K>>): Graph<K, D> {
    var keys := MapKeys(Ids(nodes));
    var ks := KeySetOf(keys);
    Graph(keys, DataMap(nodes), ChildrenMap(links, ks), ParentsMap(links, ks))
  }

  function KeySet<K(==), D>(g: Graph<K, D>): set<K> {
    KeySetOf(g.keys)
  }

  /**
   * What the layout relies on: distinct keys, both lists for every key, only keys in them,
   * and each child of `p` balanced by `p` among that child's parents.
   */
  predicate WellFormed<K(==), D>(g: Graph<K, D>) {
    && NoDup(g.keys)
    && g.children.Keys == KeySet(g) && g.parents.Keys == KeySet(g)
    && (forall k, c :: k in g.children && c in g.children[k] ==> c in g.children)
    && (forall k, p :: k in g.parents && p in g.parents[k] ==> p in g.parents)
    && (forall p, c :: p in g.children && c in g.parents ==>
          multiset(g.children[p])[c] == multiset(g.parents[c])[p])
  }

  /** Every child of `p` in the adjacency is balanced by `p` among that child's parents. */
  lemma GraphOfBalanced<K, D>(nodes: seq<NodeRec<K, D>>, links: seq<Link<K>>, p: K, c: K)
    requires p in KeySetOf(MapKeys(Ids(nodes))) && c in KeySetOf(MapKeys(Ids(nodes)))
    ensures var g := GraphOf(nodes, links);
      multiset(g.children[p])[c] == multiset(g.parents[c])[p]
  {
    var ks := KeySetOf(MapKeys(Ids(nodes)));
    ChildCount(links, ks, p, c);
    ParentCount(links, ks, p, c);
  }

  /** The lists of the adjacency name only its keys. */
  lemma GraphOfClosed<K, D>(nodes: seq<NodeRec<K, D>>, links: seq<Link<K>>, k: K, x: K)
    ensures var g := GraphOf(nodes, links);
      && (k in g.children && x in g.children[k] ==> x in g.children)
      && (k in g.parents && x in g.parents[k] ==> x in g.parents)
  {
    var g := GraphOf(nodes, links);
    if k in g.children && x in g.children[k] {
      var i :| 0 <= i < |g.children[k]| && g.children[k][i] == x;
    }
    if k in g.parents && x in g.parents[k] {
      var i :| 0 <= i < |g.parents[k]| && g.parents[k][i] == x;
    }
  }

  /** Every list of the adjacency names only keys that have lists themselves. */
  lemma GraphOfAllClosed<K, D>(nodes: seq<NodeRec<K, D>>, links: seq<Link<K>>)
    ensures var g := GraphOf(nodes, links);
      && (forall k, c :: k in g.children && c in g.children[k] ==> c in g.children)
      && (forall k, p :: k in g.parents && p in g.parents[k] ==> p in g.parents)
  {
    var g := GraphOf(nodes, links);
    forall k, c | k in g.children && c in g.children[k]
      ensures c in g.children
    {
      GraphOfClosed(nodes, links, k, c);
    }
    forall k, p | k in g.parents && p in g.parents[k]
      ensures p in g.parents
    {
      GraphOfClosed(nodes, links, k, p);
    }
  }

  /** Every child list of the adjacency is balanced by the parent lists. */
  lemma GraphOfAllBalanced<K, D>(nodes: seq<NodeRec<K, D>>, links: seq<Link<K>>)
    ensures var g := GraphOf(nodes, links);
      forall p, c :: p in g.children && c in g.parents ==>
        multiset(g.children[p])[c] == multiset(g.parents[c])[p]
  {
    var g := GraphOf(nodes, links);
    forall p, c | p in g.children && c in g.parents
      ensures multiset(g.children[p])[c] == multiset(g.parents[c])[p]
    {
      GraphOfBalanced(nodes, links, p, c);
    }
  }

  /** The records of the adjacency cover exactly its keys. */
  lemma GraphOfDataKeys<K, D>(nodes: seq<NodeRec<K, D>>, links: seq<Link<K>>)
    ensures GraphOf(nodes, links).data.Keys == KeySet(GraphOf(nodes, links))
  {
    var g := GraphOf(nodes, links);
    forall k
      ensures k in g.data <==> k in KeySet(g)
    {
      KeysAgree(nodes, k);
    }
  }

  /** The adjacency built from any input is well formed, and its data map covers exactly its keys. */
  lemma GraphOfWellFormed<K, D>(nodes: seq<NodeRec<K, D>>, links: seq<Link<K>>)
    ensures WellFormed(GraphOf(nodes, links))
    ensures GraphOf(nodes, links).data.Keys == KeySet(GraphOf(nodes, links))
  {
    GraphOfAllClosed(nodes, links);
    GraphOfAllBalanced(nodes, links);
    GraphOfDataKeys(nodes, links);
  }

  lemma IdsSnoc<K, D>(nodes: seq<NodeRec<K, D>>, n: NodeRec<K, D>)
    ensures Ids(nodes + [n]) == Ids(nodes) + [n.id]
  {
    assert (nodes + [n])[..|nodes|] == nodes;
  }

  /** The map's keys and its records always cover the same ids. */
  lemma KeysAgree<K, D>(nodes: seq<NodeRec<K, D>>, k: K)
    ensures k in MapKeys(Ids(nodes)) <==> k in DataMap(nodes)
  {
    if k in MapKeys(Ids(nodes)) {
      var j :| 0 <= j < |MapKeys(Ids(nodes))| && MapKeys(Ids(nodes))[j] == k;
    }
    if k in Ids(nodes) {
      var j :| 0 <= j < |Ids(nodes)| && Ids(nodes)[j] == k;
    }
  }

  /** Setting one more node: a new id is appended to the keys, and its record replaces any earlier one. */
  lemma SetNodeStep<K, D>(nodes: seq<NodeRec<K, D>>, n: NodeRec<K, D>)
    ensures MapKeys(Ids(nodes + [n]))
         == if n.id in DataMap(nodes) then MapKeys(Ids(nodes)) else MapKeys(Ids(nodes)) + [n.id]
    ensures DataMap(nodes + [n]) == DataMap(nodes)[n.id := n.data]
  {
    IdsSnoc(nodes, n);
    KeysAgree(nodes, n.id);
    MapKeysSnoc(Ids(nodes), n.id);
    DataMapSnoc(nodes, n);
  }

  lemma MapKeysSnoc<K>(ids: seq<K>, k: K)
    ensures MapKeys(ids + [k]) == if k in MapKeys(ids) then MapKeys(ids) else MapKeys(ids) + [k]
  {
    assert (ids + [k])[..|ids|] == ids;
  }

  lemma DataMapSnoc<K, D>(nodes: seq<NodeRec<K, D>>, n: NodeRec<K, D>)
    ensures DataMap(nodes + [n]) == DataMap(nodes)[n.id := n.data]
  {
    assert (nodes + [n])[..|nodes|] == nodes;
  }

  /** `SetNodeStep` for the prefixes of one node list. */
  lemma SetNodePrefix<K, D>(nodes: seq<NodeRec<K, D>>, i: nat)
    requires i < |nodes|
    ensures MapKeys(Ids(nodes[..i + 1]))
         == if nodes[i].id in DataMap(nodes[..i]) then MapKeys(Ids(nodes[..i])) else MapKeys(Ids(nodes[..i])) + [nodes[i].id]
    ensures DataMap(nodes[..i + 1]) == DataMap(nodes[..i])[nodes[i].id := nodes[i].data]
  {
    assert nodes[..i + 1] == nodes[..i] + [nodes[i]];
    SetNodeStep(nodes[..i], nodes[i]);
  }

  /** A new entry starts with empty lists. */
  lemma EmptyListsAdd<K>(ks: set<K>, k: K)
    ensures EmptyLists(ks)[k := []] == EmptyLists(ks + {k})
  {
    var a, b := EmptyLists(ks)[k := []], EmptyLists(ks + {k});
    assert a.Keys == b.Keys;
    assert forall x | x in a :: a[x] == b[x];
  }

  /** Attaching one more link adds its target to its source's children, if both are keys. */
  lemma AttachChildStep<K>(links: seq<Link<K>>, ks: set<K>, l: Link<K>)
    ensures var before := ChildrenMap(links, ks);
      ChildrenMap(links + [l], ks)
      == if l.source in ks && l.target in ks then before[l.source := before[l.source] + [l.target]] else before
  {
    var before := ChildrenMap(links, ks);
    var after := ChildrenMap(links + [l], ks);
    var expected := if l.source in ks && l.target in ks then before[l.source := before[l.source] + [l.target]] else before;
    forall k | k in ks
      ensures after[k] == expected[k]
    {
      ChildrenSnoc(links, ks, k, l);
    }
    assert after == expected;
  }

  /** Attaching one more link adds its source to its target's parents, if both are keys. */
  lemma AttachParentStep<K>(links: seq<Link<K>>, ks: set<K>, l: Link<K>)
    ensures var before := ParentsMap(links, ks);
      ParentsMap(links + [l], ks)
      == if l.source in ks && l.target in ks then before[l.target := before[l.target] + [l.source]] else before
  {
    var before := ParentsMap(links, ks);
    var after := ParentsMap(links + [l], ks);
    var expected := if l.source in ks && l.target in ks then before[l.target := before[l.target] + [l.source]] else before;
    forall k | k in ks
      ensures after[k] == expected[k]
    {
      ParentsSnoc(links, ks, k, l);
    }
    assert after == expected;
  }
}
