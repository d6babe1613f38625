/**
 The specification of z-ordering: each rectangle gets an order one above the highest order
 among the earlier rectangles it intersects. A linear scan, with no tree in it.
 */
module Layering {
  import opened Geometry

  /** A rectangle together with the order it was given. */
  datatype Entry = Entry(bounds: Bounds, order: nat)

  /** The largest order among the entries that `query` intersects; 0 when there is none. */
  function MaxIntersecting(log: seq<Entry>, query: Bounds): nat {
    if log == [] then 0
    else
      var last := log[|log| - 1];
      var rest := MaxIntersecting(log[..|log| - 1], query);
      if query.Intersects(last.bounds) && last.order > rest then last.order else rest
  }

  /** Every entry carries the order the rule prescribes, given the entries before it. */
  ghost predicate Layered(log: seq<Entry>) {
    forall k :: 0 <= k < |log| ==> OrderedAt(log, k)
  }

  ghost predicate OrderedAt(log: seq<Entry>, k: nat)
    requires k < |log|
  {
    log[k].order == MaxIntersecting(log[..k], log[k].bounds) + 1
  }

  lemma LayeredPush(log: seq<Entry>, bounds: Bounds)
    requires Layered(log)
    ensures Layered(log + [Entry(bounds, MaxIntersecting(log, bounds) + 1)])
  {
    var after := log + [Entry(bounds, MaxIntersecting(log, bounds) + 1)];
    forall k | 0 <= k < |after|
      ensures OrderedAt(after, k)
    {
      assert after[..k] == log[..k];
      if k < |log| {
        assert OrderedAt(log, k);
      } else {
        assert log[..k] == log;
      }
    }
  }

  /** `m` is the largest intersecting order, said without recursion. */
  ghost predicate IsMaxIntersecting(log: seq<Entry>, query: Bounds, m: nat) {
    && (forall k :: 0 <= k < |log| && query.Intersects(log[k].bounds) ==> log[k].order <= m)
    && (m == 0 || exists k :: 0 <= k < |log| && query.Intersects(log[k].bounds) && log[k].order == m)
  }

  lemma {:induction false} MaxIntersectingIsMax(log: seq<Entry>, query: Bounds)
    ensures IsMaxIntersecting(log, query, MaxIntersecting(log, query))
  {
    if log != [] {
      var n := |log| - 1;
      MaxIntersectingIsMax(log[..n], query);
      if MaxIntersecting(log, query) == MaxIntersecting(log[..n], query) != 0 {
        var k :| 0 <= k < n && query.Intersects(log[..n][k].bounds)
                 && log[..n][k].order == MaxIntersecting(log[..n], query);
        assert log[k] == log[..n][k];
      }
      forall k | 0 <= k < |log| && query.Intersects(log[k].bounds)
        ensures log[k].order <= MaxIntersecting(log, query)
      {
        if k < n {
          assert log[k] == log[..n][k];
        }
      }
    }
  }

  ghost predicate AllHaveArea(log: seq<Entry>) {
    forall k :: 0 <= k < |log| ==> log[k].bounds.HasArea()
  }

  /** No entry shares an interior point with the rectangle. */
  ghost predicate Apart(log: seq<Entry>, query: Bounds) {
    forall k :: 0 <= k < |log| ==> !ShareInterior(query, log[k].bounds)
  }

  /** Among rectangles with an area the rule is about shared points: what only touches may share an order. */
  lemma OrderByInterior(log: seq<Entry>, query: Bounds)
    requires query.HasArea() && AllHaveArea(log)
    ensures var order := MaxIntersecting(log, query) + 1;
            && (forall k :: 0 <= k < |log| && ShareInterior(query, log[k].bounds) ==> log[k].order < order)
            && (order == 1 || exists k :: 0 <= k < |log| && ShareInterior(query, log[k].bounds) && log[k].order == order - 1)
            && (Apart(log, query) ==> order == 1)
  {
    MaxIntersectingIsMax(log, query);
    forall k | 0 <= k < |log|
      ensures query.Intersects(log[k].bounds) <==> ShareInterior(query, log[k].bounds)
    {
      IntersectsIff(query, log[k].bounds);
    }
  }

  lemma MaxIntersectingIsUnique(log: seq<Entry>, query: Bounds, m: nat)
    requires IsMaxIntersecting(log, query, m)
    ensures m == MaxIntersecting(log, query)
  {
    MaxIntersectingIsMax(log, query);
  }

  /** Of two intersecting rectangles the later one is strictly above, so it paints over the earlier one. */
  lemma LaterIsAbove(log: seq<Entry>, i: nat, j: nat)
    requires Layered(log) && i < j < |log|
    requires log[j].bounds.Intersects(log[i].bounds)
    ensures log[i].order < log[j].order
  {
    assert OrderedAt(log, j);
    MaxIntersectingIsMax(log[..j], log[j].bounds);
    assert log[..j][i] == log[i];
  }

  /** No order is skipped: below an entry of order k > 1 lies an earlier one of order k - 1 that it intersects. */
  lemma HasSupport(log: seq<Entry>, j: nat) returns (i: nat)
    requires Layered(log) && j < |log| && log[j].order > 1
    ensures i < j && log[j].bounds.Intersects(log[i].bounds) && log[i].order == log[j].order - 1
  {
    assert OrderedAt(log, j);
    MaxIntersectingIsMax(log[..j], log[j].bounds);
    i :| 0 <= i < j && log[j].bounds.Intersects(log[..j][i].bounds) && log[..j][i].order == log[j].order - 1;
  }

  /** A pile of pairwise-consecutive intersecting entries, one for each order below that of entry `j`. */
  ghost predicate IsPile(log: seq<Entry>, pile: seq<nat>, j: nat) {
    && |pile| > 0 && pile[|pile| - 1] == j
    && (forall k :: 0 <= k < |pile| ==> pile[k] < |log| && log[pile[k]].order == k + 1)
    && (forall k, l :: 0 <= k < l < |pile| && l == k + 1 ==>
          pile[k] < pile[l] && log[pile[l]].bounds.Intersects(log[pile[k]].bounds))
  }

  lemma {:induction false} PileBelow(log: seq<Entry>, j: nat) returns (pile: seq<nat>)
    requires Layered(log) && j < |log|
    ensures IsPile(log, pile, j) && |pile| == log[j].order <= j + 1
    decreases j
  {
    assert OrderedAt(log, j);
    if log[j].order == 1 {
      pile := [j];
    } else {
      var i := HasSupport(log, j);
      var below := PileBelow(log, i);
      pile := below + [j];
      forall k, l | 0 <= k < l < |pile| && l == k + 1
        ensures pile[k] < pile[l] && log[pile[l]].bounds.Intersects(log[pile[k]].bounds)
      {
        if l < |below| {
          assert pile[k] == below[k] && pile[l] == below[l];
        } else {
          assert pile[k] == i && pile[l] == j;
        }
      }
    }
  }

  /** The rectangles alone determine the orders: two runs over the same rectangles agree. */
  lemma {:induction false} OrdersAreDetermined(log: seq<Entry>, log': seq<Entry>)
    requires Layered(log) && Layered(log') && |log| == |log'|
    requires forall k :: 0 <= k < |log| ==> log[k].bounds == log'[k].bounds
    ensures log == log'
  {
    if log != [] {
      var n := |log| - 1;
      LayeredPrefix(log, n);
      LayeredPrefix(log', n);
      OrdersAreDetermined(log[..n], log'[..n]);
      assert OrderedAt(log, n) && OrderedAt(log', n);
      assert log == log[..n] + [log[n]] && log' == log'[..n] + [log'[n]];
    }
  }

  lemma LayeredPrefix(log: seq<Entry>, n: nat)
    requires Layered(log) && n <= |log|
    ensures Layered(log[..n])
  {
    forall k | 0 <= k < n
      ensures OrderedAt(log[..n], k)
    {
      assert OrderedAt(log, k) && log[..n][..k] == log[..k];
    }
  }

  /** Orders are minimal: any assignment in which later intersecting rectangles are above uses orders at least as large. */
  lemma {:induction false} OrdersAreMinimal(log: seq<Entry>, other: seq<nat>, j: nat)
    requires Layered(log) && |other| == |log| && j < |log|
    requires forall i :: 0 <= i < |other| ==> other[i] >= 1
    requires forall i, k :: 0 <= i < k < |log| && log[k].bounds.Intersects(log[i].bounds) ==> other[i] < other[k]
    ensures log[j].order <= other[j]
    decreases j
  {
    if log[j].order > 1 {
      var i := HasSupport(log, j);
      OrdersAreMinimal(log, other, i);
    }
  }
}

/** The tree that answers the same question without looking at every rectangle. */
module BoundsTree {
  import opened Geometry
  import opened Layering
  import opened Wrappers

  const MAX_CHILDREN: nat := 12

  function Max(a: nat, b: nat): nat {
    if a < b then b else a
  }

  function Swap(s: seq<nat>, i: nat, j: nat): seq<nat>
    requires i < |s| && j < |s|
  {
    s[i := s[j]][j := s[i]]
  }

  datatype NodeKind = Leaf(order: nat) | Internal(children: seq<nat>)

  datatype Node = Node(bounds: Bounds, maxOrder: nat, kind: NodeKind)

  // ---------- The shape of the tree: a parent and a depth for every node ----------

  ghost predicate ChildrenOk(nodes: seq<Node>, parent: seq<nat>, depth: seq<nat>, i: nat)
    requires |parent| == |depth| == |nodes| && i < |nodes|
  {
    nodes[i].kind.Internal? ==>
      var ch := nodes[i].kind.children;
      && 2 <= |ch| <= MAX_CHILDREN
      && (forall k :: 0 <= k < |ch| ==> ch[k] < |nodes| && parent[ch[k]] == i && depth[ch[k]] == depth[i] + 1)
      && (forall j, k :: 0 <= j < k < |ch| ==> ch[j] != ch[k])
  }

  ghost predicate ParentOk(nodes: seq<Node>, parent: seq<nat>, root: nat, i: nat)
    requires |parent| == |nodes| && i < |nodes|
  {
    i != root ==>
      && parent[i] < |nodes|
      && nodes[parent[i]].kind.Internal?
      && i in nodes[parent[i]].kind.children
  }

  ghost predicate NodeShapeOk(nodes: seq<Node>, root: nat, parent: seq<nat>, depth: seq<nat>, i: nat)
    requires |parent| == |depth| == |nodes| && i < |nodes|
  {
    depth[i] < |nodes| && ChildrenOk(nodes, parent, depth, i) && ParentOk(nodes, parent, root, i)
  }

  /** Every node but the root is listed once, by its parent; depth grows along edges, so there is no cycle. */
  ghost predicate Shape(nodes: seq<Node>, root: nat, parent: seq<nat>, depth: seq<nat>) {
    && |parent| == |depth| == |nodes|
    && root < |nodes| && depth[root] == 0
    && (forall i :: 0 <= i < |nodes| ==> NodeShapeOk(nodes, root, parent, depth, i))
  }

  // ---------- The labels: bounds and max_order ----------

  ghost predicate Covers(outer: Node, inner: Node) {
    outer.bounds.Contains(inner.bounds) && inner.maxOrder <= outer.maxOrder
  }

  /** A node's bounds contain its children's, its `maxOrder` is the largest below it, and the last child carries it. */
  ghost predicate LabelOk(nodes: seq<Node>, i: nat)
    requires i < |nodes|
  {
    match nodes[i].kind
    case Leaf(order) => nodes[i].maxOrder == order
    case Internal(ch) =>
      && |ch| > 0
      && (forall c :: c in ch ==> c < |nodes| && Covers(nodes[i], nodes[c]))
      && var last := ch[|ch| - 1]; last < |nodes| && nodes[last].maxOrder == nodes[i].maxOrder
  }

  ghost predicate WellFormed(nodes: seq<Node>, root: nat, parent: seq<nat>, depth: seq<nat>) {
    && Shape(nodes, root, parent, depth)
    && (forall i :: 0 <= i < |nodes| ==> LabelOk(nodes, i))
  }

  // ---------- The rectangles stored, oldest first ----------

  function Leaves(nodes: seq<Node>): seq<Entry> {
    if nodes == [] then []
    else
      var n := |nodes| - 1;
      match nodes[n].kind
      case Leaf(order) => Leaves(nodes[..n]) + [Entry(nodes[n].bounds, order)]
      case Internal(_) => Leaves(nodes[..n])
  }

  ghost predicate IsLeaf(nodes: seq<Node>, i: int) {
    0 <= i < |nodes| && nodes[i].kind.Leaf?
  }

  /** Changing only internal nodes does not change what is stored. */
  lemma {:induction false} LeavesUntouched(before: seq<Node>, after: seq<Node>)
    requires |before| == |after|
    requires forall i :: 0 <= i < |before| ==> (before[i].kind.Leaf? <==> after[i].kind.Leaf?)
    requires forall i :: 0 <= i < |before| && before[i].kind.Leaf? ==> before[i] == after[i]
    ensures Leaves(before) == Leaves(after)
  {
    if before != [] {
      LeavesUntouched(before[..|before| - 1], after[..|after| - 1]);
    }
  }

  /** The stored entries are the leaf nodes, in both directions. */
  lemma {:induction false} LeavesAreLeafNodes(nodes: seq<Node>)
    ensures forall i :: IsLeaf(nodes, i) ==> Entry(nodes[i].bounds, nodes[i].kind.order) in Leaves(nodes)
    ensures forall e :: e in Leaves(nodes) ==>
                          exists i :: IsLeaf(nodes, i) && e == Entry(nodes[i].bounds, nodes[i].kind.order)
  {
    if nodes != [] {
      var n := |nodes| - 1;
      LeavesAreLeafNodes(nodes[..n]);
      forall i | IsLeaf(nodes, i)
        ensures Entry(nodes[i].bounds, nodes[i].kind.order) in Leaves(nodes)
      {
        if i < n {
          assert IsLeaf(nodes[..n], i) && nodes[..n][i] == nodes[i];
        }
      }
      forall e | e in Leaves(nodes)
        ensures exists i :: IsLeaf(nodes, i) && e == Entry(nodes[i].bounds, nodes[i].kind.order)
      {
        if e in Leaves(nodes[..n]) {
          var i :| IsLeaf(nodes[..n], i) && e == Entry(nodes[..n][i].bounds, nodes[..n][i].kind.order);
          assert IsLeaf(nodes, i);
        } else {
          assert IsLeaf(nodes, n);
        }
      }
    }
  }

  // ---------- What the shape means ----------

  ghost predicate Edge(nodes: seq<Node>, p: nat, c: nat) {
    p < |nodes| && nodes[p].kind.Internal? && c in nodes[p].kind.children
  }

  /** `path` walks down from the root to `i` along child lists. */
  ghost predicate IsDescent(nodes: seq<Node>, root: nat, path: seq<nat>, i: nat) {
    && |path| > 0 && path[0] == root && path[|path| - 1] == i
    && (forall k :: 0 <= k < |path| ==> path[k] < |nodes|)
    && (forall j, k :: 0 <= j < k < |path| && k == j + 1 ==> Edge(nodes, path[j], path[k]))
  }

  lemma {:induction false} DescentExists(nodes: seq<Node>, root: nat, parent: seq<nat>, depth: seq<nat>, i: nat)
    returns (path: seq<nat>)
    requires Shape(nodes, root, parent, depth) && i < |nodes|
    ensures IsDescent(nodes, root, path, i) && |path| == depth[i] + 1
    decreases depth[i]
  {
    assert NodeShapeOk(nodes, root, parent, depth, i);
    if i == root {
      path := [root];
    } else {
      var p := parent[i];
      assert NodeShapeOk(nodes, root, parent, depth, p);
      var above := DescentExists(nodes, root, parent, depth, p);
      path := above + [i];
      assert Edge(nodes, above[|above| - 1], i);
    }
  }

  /** One step of a descent goes from a parent to its child, one level deeper. */
  lemma DescentStep(nodes: seq<Node>, root: nat, parent: seq<nat>, depth: seq<nat>, path: seq<nat>, i: nat, k: nat)
    requires Shape(nodes, root, parent, depth) && IsDescent(nodes, root, path, i) && 0 < k < |path|
    ensures path[k - 1] == parent[path[k]] && depth[path[k]] == depth[path[k - 1]] + 1
  {
    assert Edge(nodes, path[k - 1], path[k]);
    assert NodeShapeOk(nodes, root, parent, depth, path[k - 1]);
  }

  lemma {:induction false} DescentDepth(nodes: seq<Node>, root: nat, parent: seq<nat>, depth: seq<nat>,
                                        path: seq<nat>, i: nat, k: nat)
    requires Shape(nodes, root, parent, depth) && IsDescent(nodes, root, path, i) && k < |path|
    ensures depth[path[k]] == k
  {
    if k > 0 {
      DescentDepth(nodes, root, parent, depth, path, i, k - 1);
      DescentStep(nodes, root, parent, depth, path, i, k);
    }
  }

  /** Every node is reachable by exactly one descent: the structure is a tree, whatever order its indices have. */
  lemma DescentIsUnique(nodes: seq<Node>, root: nat, parent: seq<nat>, depth: seq<nat>,
                        p: seq<nat>, q: seq<nat>, i: nat)
    requires Shape(nodes, root, parent, depth)
    requires IsDescent(nodes, root, p, i) && IsDescent(nodes, root, q, i)
    ensures p == q
  {
    DescentDepth(nodes, root, parent, depth, p, i, |p| - 1);
    DescentDepth(nodes, root, parent, depth, q, i, |q| - 1);
    forall k | 0 <= k < |p|
      ensures p[k] == q[k]
    {
      DescentsAgree(nodes, root, parent, depth, p, q, i, k);
    }
  }

  lemma {:induction false} DescentsAgree(nodes: seq<Node>, root: nat, parent: seq<nat>, depth: seq<nat>,
                                         p: seq<nat>, q: seq<nat>, i: nat, k: nat)
    requires Shape(nodes, root, parent, depth)
    requires IsDescent(nodes, root, p, i) && IsDescent(nodes, root, q, i)
    requires |p| == |q| && k < |p|
    ensures p[k] == q[k]
    decreases |p| - k
  {
    if k + 1 < |p| {
      DescentsAgree(nodes, root, parent, depth, p, q, i, k + 1);
      DescentStep(nodes, root, parent, depth, p, i, k + 1);
      DescentStep(nodes, root, parent, depth, q, i, k + 1);
    }
  }

  /** A node's label bounds every node below it. */
  lemma {:induction false} LabelsCoverDescendants(nodes: seq<Node>, root: nat, parent: seq<nat>, depth: seq<nat>,
                                                  path: seq<nat>, i: nat, k: nat)
    requires WellFormed(nodes, root, parent, depth) && IsDescent(nodes, root, path, i) && k < |path|
    ensures Covers(nodes[path[k]], nodes[i])
    decreases |path| - k
  {
    if k + 1 < |path| {
      LabelsCoverDescendants(nodes, root, parent, depth, path, i, k + 1);
      assert Edge(nodes, path[k], path[k + 1]);
      assert LabelOk(nodes, path[k]);
    }
  }

  /** `c` is the last child of `p`. */
  ghost predicate LastEdge(nodes: seq<Node>, p: nat, c: nat) {
    Edge(nodes, p, c) && nodes[p].kind.children[|nodes[p].kind.children| - 1] == c
  }

  /** `path` walks down from `i` to the leaf `leaf`, each time to the last child. */
  ghost predicate IsLastDescent(nodes: seq<Node>, i: nat, path: seq<nat>, leaf: nat) {
    && |path| > 0 && path[0] == i && path[|path| - 1] == leaf && IsLeaf(nodes, leaf)
    && (forall j, k :: 0 <= j < k < |path| && k == j + 1 ==> LastEdge(nodes, path[j], path[k]))
  }

  /** Following last children from any node reaches a leaf of exactly the node's `maxOrder`. */
  lemma {:induction false} LastChildrenReachMax(nodes: seq<Node>, root: nat, parent: seq<nat>, depth: seq<nat>, i: nat)
    returns (path: seq<nat>, leaf: nat)
    requires WellFormed(nodes, root, parent, depth) && i < |nodes|
    ensures IsLastDescent(nodes, i, path, leaf) && nodes[leaf].kind.order == nodes[i].maxOrder
    decreases |nodes| - depth[i]
  {
    assert LabelOk(nodes, i) && NodeShapeOk(nodes, root, parent, depth, i);
    match nodes[i].kind
    case Leaf(_) => path, leaf := [i], i;
    case Internal(ch) =>
      var below: seq<nat>;
      below, leaf := LastChildrenReachMax(nodes, root, parent, depth, ch[|ch| - 1]);
      path := [i] + below;
      forall j, k | 0 <= j < k < |path| && k == j + 1
        ensures LastEdge(nodes, path[j], path[k])
      {
        if j > 0 {
          assert LastEdge(nodes, below[j - 1], below[k - 1]);
        }
      }
  }

  /** No leaf below a node has a larger order: `maxOrder` is exactly the maximum of the subtree. */
  lemma MaxOrderIsSubtreeMax(nodes: seq<Node>, root: nat, parent: seq<nat>, depth: seq<nat>, path: seq<nat>, i: nat, k: nat)
    requires WellFormed(nodes, root, parent, depth) && IsDescent(nodes, root, path, i) && k < |path| && IsLeaf(nodes, i)
    ensures nodes[i].kind.order <= nodes[path[k]].maxOrder
  {
    LabelsCoverDescendants(nodes, root, parent, depth, path, i, k);
    assert LabelOk(nodes, i);
  }

  // ---------- Linking a new leaf, on values ----------

  /** `after` is `before` with `child` added as last or, swapped with the old last, as next to last. */
  ghost predicate LinkedChildren(before: seq<nat>, child: nat, after: seq<nat>) {
    && |before| > 0
    && (after == before + [child] || after == before[..|before| - 1] + [child, before[|before| - 1]])
  }

  /** `after` is `before` with `child` put at `pos` and then possibly swapped to the end. */
  ghost predicate ReplacedChildren(before: seq<nat>, pos: nat, child: nat, after: seq<nat>) {
    && pos < |before|
    && (after == before[pos := child]
        || after == before[pos := before[|before| - 1]][|before| - 1 := child])
  }

  /** A root that is a leaf is the only node. */
  lemma RootLeafIsAlone(nodes: seq<Node>, root: nat, parent: seq<nat>, depth: seq<nat>)
    requires Shape(nodes, root, parent, depth)
    ensures |nodes| == 1 || nodes[root].kind.Internal?
  {
    if |nodes| > 1 {
      var i := if root == 0 then 1 else 0;
      var path := DescentExists(nodes, root, parent, depth, i);
      assert Edge(nodes, path[0], path[1]);
    }
  }

  /** A leaf linked under an internal node with room keeps the shape. */
  lemma ShapeAfterLink(nodes: seq<Node>, root: nat, parent: seq<nat>, depth: seq<nat>,
                       leaf: Node, at: nat, updated: Node)
    requires Shape(nodes, root, parent, depth) && leaf.kind.Leaf? && at < |nodes|
    requires nodes[at].kind.Internal? && updated.kind.Internal?
    requires |nodes[at].kind.children| < MAX_CHILDREN
    requires LinkedChildren(nodes[at].kind.children, |nodes|, updated.kind.children)
    ensures Shape((nodes + [leaf])[at := updated], root, parent + [at], depth + [depth[at] + 1])
  {
    var n := |nodes|;
    var after := (nodes + [leaf])[at := updated];
    var p, d := parent + [at], depth + [depth[at] + 1];
    assert NodeShapeOk(nodes, root, parent, depth, at);
    LinkedMembers(nodes[at].kind.children, n, updated.kind.children);
    assert ParentOk(after, p, root, n);
    assert ChildrenOk(after, p, d, at);
    forall i | 0 <= i < n
      ensures NodeShapeOk(after, root, p, d, i)
    {
      assert NodeShapeOk(nodes, root, parent, depth, i);
      assert i != at ==> after[i] == nodes[i];
    }
    assert forall i :: 0 <= i < |after| ==> NodeShapeOk(after, root, p, d, i);
  }

  lemma LinkedMembers(before: seq<nat>, child: nat, after: seq<nat>)
    requires LinkedChildren(before, child, after)
    ensures |after| == |before| + 1
    ensures forall c :: c in after <==> c in before || c == child
    ensures (forall j, k :: 0 <= j < k < |before| ==> before[j] != before[k]) && child !in before
            ==> forall j, k :: 0 <= j < k < |after| ==> after[j] != after[k]
  {
    assert before == before[..|before| - 1] + [before[|before| - 1]];
  }

  lemma ReplacedMembers(before: seq<nat>, pos: nat, child: nat, after: seq<nat>)
    requires ReplacedChildren(before, pos, child, after)
    requires (forall j, k :: 0 <= j < k < |before| ==> before[j] != before[k]) && child !in before
    ensures |after| == |before|
    ensures forall c :: c in after <==> (c in before && c != before[pos]) || c == child
    ensures forall j, k :: 0 <= j < k < |after| ==> after[j] != after[k]
  {
    forall c | c in before && c != before[pos]
      ensures c in after
    {
      var k :| 0 <= k < |before| && before[k] == c;
      assert c == after[k] || c == after[pos];
    }
    assert after[pos] == child || after[|after| - 1] == child;
  }

  /** A leaf replaced, in a full node, by an internal node over that leaf and the new one keeps the shape. */
  lemma ShapeAfterSplit(nodes: seq<Node>, root: nat, parent: seq<nat>, depth: seq<nat>,
                        leaf: Node, pair: Node, at: nat, pos: nat, updated: Node, s: nat)
    requires Shape(nodes, root, parent, depth) && leaf.kind.Leaf? && at < |nodes|
    requires nodes[at].kind.Internal? && updated.kind.Internal? && pair.kind.Internal?
    requires pos < |nodes[at].kind.children| && s == nodes[at].kind.children[pos] && IsLeaf(nodes, s)
    requires ReplacedChildren(nodes[at].kind.children, pos, |nodes| + 1, updated.kind.children)
    requires pair.kind.children == [s, |nodes|] || pair.kind.children == [|nodes|, s]
    ensures Shape((nodes + [leaf, pair])[at := updated], root,
                  parent[s := |nodes| + 1] + [|nodes| + 1, at],
                  depth[s := depth[at] + 2] + [depth[at] + 2, depth[at] + 1])
  {
    var n := |nodes|;
    var after := (nodes + [leaf, pair])[at := updated];
    var p := parent[s := n + 1] + [n + 1, at];
    var d := depth[s := depth[at] + 2] + [depth[at] + 2, depth[at] + 1];
    assert NodeShapeOk(nodes, root, parent, depth, at) && NodeShapeOk(nodes, root, parent, depth, s);
    ReplacedMembers(nodes[at].kind.children, pos, n + 1, updated.kind.children);
    assert after[n] == leaf && after[n + 1] == pair && after[at] == updated && after[s] == nodes[s];
    SplitAt(nodes, root, parent, depth, after, p, d, at, s, pos);
    forall i | 0 <= i < |after|
      ensures NodeShapeOk(after, root, p, d, i)
    {
      if i < n && i != s && i != at {
        SplitElsewhere(nodes, root, parent, depth, after, p, d, at, s, i);
      }
    }
  }

  /** The node whose list was changed keeps its links. */
  lemma SplitAt(nodes: seq<Node>, root: nat, parent: seq<nat>, depth: seq<nat>,
                after: seq<Node>, p: seq<nat>, d: seq<nat>, at: nat, s: nat, pos: nat)
    requires Shape(nodes, root, parent, depth) && at < |nodes| && nodes[at].kind.Internal?
    requires pos < |nodes[at].kind.children| && s == nodes[at].kind.children[pos]
    requires |p| == |d| == |after| == |nodes| + 2 && after[at].kind.Internal?
    requires ReplacedChildren(nodes[at].kind.children, pos, |nodes| + 1, after[at].kind.children)
    requires forall k :: 0 <= k < |nodes| && k != s ==> p[k] == parent[k] && d[k] == depth[k]
    requires forall k :: 0 <= k < |nodes| && k != at ==> after[k] == nodes[k]
    requires p[|nodes| + 1] == at && d[|nodes| + 1] == depth[at] + 1
    ensures NodeShapeOk(after, root, p, d, at)
  {
    assert NodeShapeOk(nodes, root, parent, depth, at);
    ReplacedMembers(nodes[at].kind.children, pos, |nodes| + 1, after[at].kind.children);
    var ch0, ch := nodes[at].kind.children, after[at].kind.children;
    forall k | 0 <= k < |ch|
      ensures ch[k] < |after| && p[ch[k]] == at && d[ch[k]] == d[at] + 1
    {
      assert ch[k] in ch;
      if ch[k] != |nodes| + 1 {
        var l :| 0 <= l < |ch0| && ch0[l] == ch[k];
      }
    }
  }

  /** A node away from the split keeps its links. */
  lemma SplitElsewhere(nodes: seq<Node>, root: nat, parent: seq<nat>, depth: seq<nat>,
                       after: seq<Node>, p: seq<nat>, d: seq<nat>, at: nat, s: nat, i: nat)
    requires Shape(nodes, root, parent, depth) && at < |nodes| && s < |nodes| && s != root && parent[s] == at
    requires |p| == |d| == |after| >= |nodes| && i < |nodes| && i != at && i != s
    requires after[i] == nodes[i] && p[i] == parent[i] && d[i] == depth[i]
    requires forall k :: 0 <= k < |nodes| && k != s ==> p[k] == parent[k] && d[k] == depth[k]
    requires forall k :: 0 <= k < |nodes| && k != at ==> after[k] == nodes[k]
    requires nodes[at].kind.Internal? && after[at].kind.Internal?
    requires forall c :: c in nodes[at].kind.children && c != s ==> c in after[at].kind.children
    ensures NodeShapeOk(after, root, p, d, i)
  {
    assert NodeShapeOk(nodes, root, parent, depth, i);
  }

  // ---------- Carrying the new leaf's label up the path ----------

  /** The label of `i` is right for its children, once `i` itself takes in the given bounds and order. */
  ghost predicate ReadyToAbsorb(nodes: seq<Node>, i: nat, bounds: Bounds, order: nat)
    requires i < |nodes|
  {
    && nodes[i].kind.Internal?
    && var ch, m := nodes[i].kind.children, Max(nodes[i].maxOrder, order);
    && |ch| > 0
    && (forall c :: c in ch ==>
          c < |nodes| && nodes[i].bounds.Union(bounds).Contains(nodes[c].bounds) && nodes[c].maxOrder <= m)
    && var last := ch[|ch| - 1]; last < |nodes| && nodes[last].maxOrder == m
  }

  /**
   The label of `i` is right for its children other than `c`; for `c` it is right up to the
   given bounds and order, which `c` has taken in or is about to.
   */
  ghost predicate LabelUpTo(nodes: seq<Node>, i: nat, c: nat, bounds: Bounds, order: nat)
    requires i < |nodes| && c < |nodes|
  {
    && nodes[i].kind.Internal?
    && var ch, m := nodes[i].kind.children, Max(nodes[c].maxOrder, order);
    && c in ch
    && (forall d :: d in ch ==> d < |nodes| && (d != c ==> Covers(nodes[i], nodes[d])))
    && nodes[i].bounds.Union(bounds).Contains(nodes[c].bounds.Union(bounds))
    && if nodes[i].maxOrder < order then m == order
       else
         && m <= nodes[i].maxOrder
         && ch[|ch| - 1] < |nodes|
         && (if ch[|ch| - 1] == c then m else nodes[ch[|ch| - 1]].maxOrder) == nodes[i].maxOrder
  }

  lemma OkIsUpTo(nodes: seq<Node>, i: nat, c: nat, bounds: Bounds, order: nat)
    requires i < |nodes| && c < |nodes| && LabelOk(nodes, i)
    requires nodes[i].kind.Internal? && c in nodes[i].kind.children
    ensures LabelUpTo(nodes, i, c, bounds, order)
  {
    var outer := nodes[i].bounds.Union(bounds);
    UnionIsLeast(nodes[c].bounds, bounds, outer);
  }

  /** The first `j` nodes of `path` still have to take in the new leaf; everything else has its final label. */
  ghost predicate Climbing(nodes: seq<Node>, path: seq<nat>, j: nat, bounds: Bounds, order: nat) {
    && j <= |path|
    && (forall t :: 0 <= t < |path| ==> path[t] < |nodes|)
    && (forall i :: 0 <= i < |nodes| && i !in path[..j] ==> LabelOk(nodes, i))
    && (forall t, u :: 0 <= t < u < j && u == t + 1 ==> LabelUpTo(nodes, path[t], path[u], bounds, order))
    && (0 < j == |path| ==> ReadyToAbsorb(nodes, path[j - 1], bounds, order))
    && (0 < j < |path| ==>
          && LabelUpTo(nodes, path[j - 1], path[j], bounds, order)
          && nodes[path[j]].bounds.Contains(bounds) && order <= nodes[path[j]].maxOrder)
  }

  /** Only the node above `path[t]` on the path has it as a child. */
  ghost predicate OnlyParent(nodes: seq<Node>, path: seq<nat>, t: nat)
    requires t < |path|
  {
    forall i :: 0 <= i < |nodes| && nodes[i].kind.Internal? && path[t] in nodes[i].kind.children ==>
      t > 0 && i == path[t - 1]
  }

  /** `updated` has the children of `node`, with `c` last when the order of `node` grows. */
  ghost predicate Absorbed(node: Node, c: Option<nat>, bounds: Bounds, order: nat, updated: Node) {
    && node.kind.Internal? && updated.kind.Internal?
    && updated.bounds == node.bounds.Union(bounds)
    && updated.maxOrder == Max(node.maxOrder, order)
    && |updated.kind.children| == |node.kind.children| > 0
    && (forall x :: x in updated.kind.children <==> x in node.kind.children)
    && if c.Some? && node.maxOrder < order
       then updated.kind.children[|updated.kind.children| - 1] == c.value
       else updated.kind.children == node.kind.children
  }

  /** The node that absorbs gets its final label. */
  lemma AbsorbedLabelIsOk(nodes: seq<Node>, i: nat, c: Option<nat>, bounds: Bounds, order: nat, updated: Node)
    requires i < |nodes| && nodes[i].kind.Internal? && i !in nodes[i].kind.children
    requires c.None? ==> ReadyToAbsorb(nodes, i, bounds, order)
    requires c.Some? ==> c.value < |nodes| && LabelUpTo(nodes, i, c.value, bounds, order)
                         && order <= nodes[c.value].maxOrder
    requires Absorbed(nodes[i], c, bounds, order, updated)
    ensures LabelOk(nodes[i := updated], i)
  {
    var after := nodes[i := updated];
    var ch := updated.kind.children;
    forall x | x in ch
      ensures x < |nodes| && Covers(updated, after[x])
    {
      if c.Some? && x == c.value {
        UnionIsLeast(nodes[x].bounds, bounds, updated.bounds);
      }
    }
    assert ch[|ch| - 1] in ch;
  }

  /** A node above sees no difference when its child on the path absorbs. */
  lemma UpToSurvives(nodes: seq<Node>, p: nat, i: nat, bounds: Bounds, order: nat, updated: Node)
    requires p < |nodes| && i < |nodes| && p != i && LabelUpTo(nodes, p, i, bounds, order)
    requires updated.bounds == nodes[i].bounds.Union(bounds)
    requires updated.maxOrder == Max(nodes[i].maxOrder, order)
    ensures LabelUpTo(nodes[i := updated], p, i, bounds, order)
    ensures updated.bounds.Contains(bounds) && order <= updated.maxOrder
  {
    var outer := nodes[p].bounds.Union(bounds);
    UnionIsLeast(nodes[i].bounds, bounds, outer);
    UnionIsLeast(updated.bounds, bounds, outer);
  }

  /** One step of the climb: the lowest waiting node takes in the new leaf, and only its parent is left to adjust. */
  lemma ClimbOne(nodes: seq<Node>, path: seq<nat>, j: nat, bounds: Bounds, order: nat, updated: Node)
    requires 0 < j <= |path| && Climbing(nodes, path, j, bounds, order)
    requires forall t, u :: 0 <= t < u < |path| ==> path[t] != path[u]
    requires forall t :: 0 <= t < |path| ==> OnlyParent(nodes, path, t)
    requires Absorbed(nodes[path[j - 1]], if j < |path| then Some(path[j]) else None, bounds, order, updated)
    ensures Climbing(nodes[path[j - 1] := updated], path, j - 1, bounds, order)
  {
    var i := path[j - 1];
    var after := nodes[i := updated];
    assert OnlyParent(nodes, path, j - 1);
    AbsorbedLabelIsOk(nodes, i, if j < |path| then Some(path[j]) else None, bounds, order, updated);
    forall x | 0 <= x < |nodes| && x !in path[..j - 1]
      ensures LabelOk(after, x)
    {
      if x != i {
        assert path[..j] == path[..j - 1] + [i];
        LabelElsewhere(nodes, i, updated, x);
      }
    }
    forall t, u | 0 <= t < u < j - 1 && u == t + 1
      ensures LabelUpTo(after, path[t], path[u], bounds, order)
    {
      UpToElsewhere(nodes, i, updated, path[t], path[u], bounds, order);
    }
    if j > 1 {
      UpToSurvives(nodes, path[j - 2], i, bounds, order, updated);
    }
  }

  lemma LabelElsewhere(nodes: seq<Node>, i: nat, updated: Node, x: nat)
    requires i < |nodes| && x < |nodes| && x != i && LabelOk(nodes, x)
    requires nodes[x].kind.Internal? ==> i !in nodes[x].kind.children
    ensures LabelOk(nodes[i := updated], x)
  {
  }

  lemma UpToElsewhere(nodes: seq<Node>, i: nat, updated: Node, p: nat, c: nat, bounds: Bounds, order: nat)
    requires i < |nodes| && p < |nodes| && c < |nodes| && p != i && c != i
    requires LabelUpTo(nodes, p, c, bounds, order) && i !in nodes[p].kind.children
    ensures LabelUpTo(nodes[i := updated], p, c, bounds, order)
  {
  }

  /** Rearranging the children of one node keeps the shape. */
  lemma ShapeAfterSwap(nodes: seq<Node>, root: nat, parent: seq<nat>, depth: seq<nat>, at: nat, updated: Node)
    requires Shape(nodes, root, parent, depth) && at < |nodes|
    requires nodes[at].kind.Internal? && updated.kind.Internal?
    requires forall c :: c in updated.kind.children <==> c in nodes[at].kind.children
    requires |updated.kind.children| == |nodes[at].kind.children|
    requires forall j, k :: 0 <= j < k < |updated.kind.children| ==> updated.kind.children[j] != updated.kind.children[k]
    ensures Shape(nodes[at := updated], root, parent, depth)
  {
    var after := nodes[at := updated];
    var ch0, ch := nodes[at].kind.children, updated.kind.children;
    assert NodeShapeOk(nodes, root, parent, depth, at);
    assert forall k :: 0 <= k < |ch| ==> ch[k] in ch0;
    forall i | 0 <= i < |nodes|
      ensures NodeShapeOk(after, root, parent, depth, i)
    {
      assert NodeShapeOk(nodes, root, parent, depth, i);
    }
  }

  lemma SwapMembers(s: seq<nat>, i: nat, j: nat)
    requires i < |s| && j < |s|
    requires forall x, y :: 0 <= x < y < |s| ==> s[x] != s[y]
    ensures |Swap(s, i, j)| == |s| && Swap(s, i, j)[j] == s[i]
    ensures forall c :: c in Swap(s, i, j) <==> c in s
    ensures forall x, y :: 0 <= x < y < |s| ==> Swap(s, i, j)[x] != Swap(s, i, j)[y]
  {
    var t := Swap(s, i, j);
    forall c | c in s
      ensures c in t
    {
      var k :| 0 <= k < |s| && s[k] == c;
      assert t[k] == c || t[i] == c || t[j] == c;
    }
  }

  /** On a descent, nodes are distinct and each is a child of the one above it only. */
  lemma DescentLinks(nodes: seq<Node>, root: nat, parent: seq<nat>, depth: seq<nat>, path: seq<nat>, at: nat)
    requires Shape(nodes, root, parent, depth) && IsDescent(nodes, root, path, at)
    ensures forall t, u :: 0 <= t < u < |path| ==> path[t] != path[u]
    ensures forall t :: 0 <= t < |path| ==> OnlyParent(nodes, path, t)
  {
    forall t | 0 <= t < |path|
      ensures depth[path[t]] == t && OnlyParent(nodes, path, t)
    {
      DescentDepth(nodes, root, parent, depth, path, at, t);
      if t > 0 {
        DescentStep(nodes, root, parent, depth, path, at, t);
      }
      forall i | 0 <= i < |nodes| && nodes[i].kind.Internal? && path[t] in nodes[i].kind.children
        ensures t > 0 && i == path[t - 1]
      {
        assert NodeShapeOk(nodes, root, parent, depth, i);
      }
    }
  }

  /** Once a leaf hangs below `at`, and `at` is ready for it, the climb along the descent to `at` can start. */
  lemma StartClimb(base: seq<Node>, root: nat, parent: seq<nat>, depth: seq<nat>, path: seq<nat>, at: nat,
                   after: seq<Node>, bounds: Bounds, order: nat)
    requires WellFormed(base, root, parent, depth) && IsDescent(base, root, path, at)
    requires |base| <= |after|
    requires forall i :: 0 <= i < |base| && i != at ==> after[i] == base[i]
    requires forall i :: |base| <= i < |after| ==> LabelOk(after, i)
    requires || (after[at].bounds == base[at].bounds && after[at].maxOrder == base[at].maxOrder)
             || (after[at].bounds == base[at].bounds.Union(bounds) && after[at].maxOrder == Max(base[at].maxOrder, order))
    requires ReadyToAbsorb(after, at, bounds, order)
    ensures Climbing(after, path, |path|, bounds, order)
  {
    DescentLinks(base, root, parent, depth, path, at);
    var m := |path|;
    forall i | 0 <= i < |after| && i !in path[..m]
      ensures LabelOk(after, i)
    {
      if i < |base| {
        assert LabelOk(base, i);
        assert path[m - 1] in path;
        assert OnlyParent(base, path, m - 1);
        assert m > 1 ==> path[m - 2] in path;
      }
    }
    forall t, u | 0 <= t < u < m && u == t + 1
      ensures LabelUpTo(after, path[t], path[u], bounds, order)
    {
      assert Edge(base, path[t], path[u]) && LabelOk(base, path[t]);
      OkIsUpTo(base, path[t], path[u], bounds, order);
      assert OnlyParent(base, path, m - 1);
      if u == m - 1 {
        UpToAtBottom(base, path[t], at, after, bounds, order);
      }
    }
  }

  lemma UpToAtBottom(base: seq<Node>, p: nat, at: nat, after: seq<Node>, bounds: Bounds, order: nat)
    requires p < |base| <= |after| && at < |base| && p != at && LabelUpTo(base, p, at, bounds, order)
    requires forall i :: 0 <= i < |base| && i != at ==> after[i] == base[i]
    requires || (after[at].bounds == base[at].bounds && after[at].maxOrder == base[at].maxOrder)
             || (after[at].bounds == base[at].bounds.Union(bounds) && after[at].maxOrder == Max(base[at].maxOrder, order))
    ensures LabelUpTo(after, p, at, bounds, order)
  {
    var outer := base[p].bounds.Union(bounds);
    UnionIsLeast(base[at].bounds, bounds, outer);
    UnionIsLeast(after[at].bounds, bounds, outer);
  }

  /** The node that gets the leaf directly is ready, with the leaf last exactly when it is the new maximum. */
  lemma ReadyAfterLink(base: seq<Node>, at: nat, after: seq<Node>, bounds: Bounds, order: nat)
    requires at < |base| && LabelOk(base, at) && base[at].kind.Internal? && at !in base[at].kind.children
    requires |after| == |base| + 1 && after[|base|] == Node(bounds, order, Leaf(order))
    requires forall i :: 0 <= i < |base| && i != at ==> after[i] == base[i]
    requires var ch := base[at].kind.children;
             after[at] == Node(base[at].bounds.Union(bounds), Max(base[at].maxOrder, order),
                               Internal(if order <= base[at].maxOrder
                                        then ch[..|ch| - 1] + [|base|, ch[|ch| - 1]] else ch + [|base|]))
    ensures ReadyToAbsorb(after, at, bounds, order)
  {
    var ch := base[at].kind.children;
    assert ch == ch[..|ch| - 1] + [ch[|ch| - 1]];
    var outer := after[at].bounds.Union(bounds);
    forall c | c in after[at].kind.children
      ensures c < |after| && outer.Contains(after[c].bounds) && after[c].maxOrder <= Max(base[at].maxOrder, order)
    {
      if c != |base| {
        assert c in ch && Covers(base[at], base[c]);
      }
    }
    assert ch[|ch| - 1] in ch;
  }

  /** The full node whose leaf at `pos` became a pair is ready, with the pair last exactly when it carries the maximum. */
  lemma ReadyAfterSplit(base: seq<Node>, at: nat, pos: nat, after: seq<Node>, bounds: Bounds, order: nat)
    requires at < |base| && LabelOk(base, at) && base[at].kind.Internal? && at !in base[at].kind.children
    requires pos < |base[at].kind.children|
    requires forall j, k :: 0 <= j < k < |base[at].kind.children| ==>
                              base[at].kind.children[j] != base[at].kind.children[k]
    requires |after| == |base| + 2 && base[at].kind.children[pos] < |base|
    requires forall i :: 0 <= i < |base| && i != at ==> after[i] == base[i]
    requires var s := base[base[at].kind.children[pos]];
             && after[|base| + 1].bounds == s.bounds.Union(bounds)
             && after[|base| + 1].maxOrder == Max(s.maxOrder, order)
    requires var ch := base[at].kind.children[pos := |base| + 1];
             after[at] == Node(base[at].bounds, base[at].maxOrder,
                               Internal(if after[|base| + 1].maxOrder > base[at].maxOrder
                                        then Swap(ch, pos, |ch| - 1) else ch))
    ensures ReadyToAbsorb(after, at, bounds, order)
  {
    var ch0 := base[at].kind.children;
    var pair := |base| + 1;
    assert ch0[pos] in ch0 && Covers(base[at], base[ch0[pos]]);
    assert ReplacedChildren(ch0, pos, pair, after[at].kind.children);
    assert pair !in ch0;
    ReplacedMembers(ch0, pos, pair, after[at].kind.children);
    var outer := base[at].bounds.Union(bounds);
    UnionIsLeast(base[ch0[pos]].bounds, bounds, outer);
    forall c | c in after[at].kind.children
      ensures c < |after| && outer.Contains(after[c].bounds) && after[c].maxOrder <= Max(base[at].maxOrder, order)
    {
      if c != pair {
        assert c in ch0 && Covers(base[at], base[c]);
      }
    }
    assert ch0[|ch0| - 1] in ch0;
  }

  /** The state of the climb: the shape holds, `path` is a descent, and `j` of its nodes are left to adjust. */
  ghost predicate ClimbState(nodes: seq<Node>, root: nat, parent: seq<nat>, depth: seq<nat>,
                             path: seq<nat>, j: nat, bounds: Bounds, order: nat)
  {
    && Shape(nodes, root, parent, depth)
    && |path| > 0 && IsDescent(nodes, root, path, path[|path| - 1])
    && Climbing(nodes, path, j, bounds, order)
  }

  ghost predicate SameLeaves(before: seq<Node>, after: seq<Node>) {
    && |before| == |after|
    && forall i :: 0 <= i < |before| ==>
         (before[i].kind.Leaf? <==> after[i].kind.Leaf?) && (before[i].kind.Leaf? ==> before[i] == after[i])
  }

  /** What the climb writes back for one node. */
  function Updated(node: Node, child: Option<nat>, bounds: Bounds, order: nat): Node
    requires node.kind.Internal? && (child.Some? ==> child.value in node.kind.children)
  {
    var ch := node.kind.children;
    if node.maxOrder < order then
      Node(node.bounds.Union(bounds), order,
           Internal(if child.Some? then Swap(ch, IndexOf(ch, child.value), |ch| - 1) else ch))
    else
      node.(bounds := node.bounds.Union(bounds))
  }

  lemma UpdatedIsAbsorbed(node: Node, child: Option<nat>, bounds: Bounds, order: nat)
    requires node.kind.Internal? && (child.Some? ==> child.value in node.kind.children)
    requires |node.kind.children| > 0
    requires forall j, k :: 0 <= j < k < |node.kind.children| ==> node.kind.children[j] != node.kind.children[k]
    ensures var updated := Updated(node, child, bounds, order);
            && Absorbed(node, child, bounds, order, updated)
            && forall j, k :: 0 <= j < k < |updated.kind.children| ==>
                                updated.kind.children[j] != updated.kind.children[k]
  {
    var ch := node.kind.children;
    if child.Some? {
      SwapMembers(ch, IndexOf(ch, child.value), |ch| - 1);
    }
  }

  ghost function ChildOnPath(path: seq<nat>, j: nat): Option<nat> {
    if j < |path| then Some(path[j]) else None
  }

  /** What the climb may rely on at each turn. */
  lemma ClimbFacts(nodes: seq<Node>, root: nat, parent: seq<nat>, depth: seq<nat>,
                   path: seq<nat>, j: nat, bounds: Bounds, order: nat)
    requires ClimbState(nodes, root, parent, depth, path, j, bounds, order) && 0 < j
    ensures j <= |path| && path[j - 1] < |nodes|
    ensures var node := nodes[path[j - 1]];
            && node.kind.Internal? && |node.kind.children| > 0
            && (j < |path| ==> path[j] in node.kind.children)
            && forall x, y :: 0 <= x < y < |node.kind.children| ==> node.kind.children[x] != node.kind.children[y]
  {
    assert NodeShapeOk(nodes, root, parent, depth, path[j - 1]);
  }

  lemma ClimbStep(nodes: seq<Node>, root: nat, parent: seq<nat>, depth: seq<nat>,
                  path: seq<nat>, j: nat, bounds: Bounds, order: nat, updated: Node)
    requires ClimbState(nodes, root, parent, depth, path, j, bounds, order) && 0 < j <= |path|
    requires path[j - 1] < |nodes| && Absorbed(nodes[path[j - 1]], ChildOnPath(path, j), bounds, order, updated)
    requires forall x, y :: 0 <= x < y < |updated.kind.children| ==> updated.kind.children[x] != updated.kind.children[y]
    ensures var after := nodes[path[j - 1] := updated];
            SameLeaves(nodes, after) && ClimbState(after, root, parent, depth, path, j - 1, bounds, order)
  {
    var i := path[j - 1];
    var after := nodes[i := updated];
    assert Climbing(after, path, j - 1, bounds, order) by {
      DescentLinks(nodes, root, parent, depth, path, path[|path| - 1]);
      ClimbOne(nodes, path, j, bounds, order, updated);
    }
    assert Shape(after, root, parent, depth) by {
      ShapeAfterSwap(nodes, root, parent, depth, i, updated);
    }
    forall t, u | 0 <= t < u < |path| && u == t + 1
      ensures Edge(after, path[t], path[u])
    {
      assert Edge(nodes, path[t], path[u]);
    }
  }

  // ---------- Searching, on values ----------

  /** A visited node has nothing left to offer: it was pruned, or each child is visited, waiting or prunable. */
  ghost predicate Explored(nodes: seq<Node>, query: Bounds, visited: set<nat>, stack: seq<nat>, best: nat, v: nat)
    requires v < |nodes|
  {
    || nodes[v].maxOrder <= best
    || !query.Intersects(nodes[v].bounds)
    || (nodes[v].kind.Internal? && forall c :: c in nodes[v].kind.children ==>
          c in visited || c in stack || (c < |nodes| && nodes[c].maxOrder <= best))
  }

  /** The depth-first search has lost no candidate so far. */
  ghost predicate Searching(nodes: seq<Node>, root: nat, parent: seq<nat>, query: Bounds,
                            visited: set<nat>, stack: seq<nat>, best: nat)
    requires |parent| == |nodes| && root < |nodes|
  {
    && (forall v :: v in visited ==> v < |nodes| && (v == root || parent[v] in visited))
    && (forall v :: v in stack ==> v < |nodes| && v !in visited && (v == root || parent[v] in visited))
    && (forall j, k :: 0 <= j < k < |stack| ==> stack[j] != stack[k])
    && (root in visited || root in stack)
    && (forall v :: v in visited ==> Explored(nodes, query, visited, stack, best, v))
    && (best == 0 || exists i :: IsLeaf(nodes, i) && query.Intersects(nodes[i].bounds) && nodes[i].kind.order == best)
  }

  /** When nothing waits any more, every node was visited, prunable by order, or missed by the query. */
  lemma {:induction false} SearchComplete(nodes: seq<Node>, root: nat, parent: seq<nat>, depth: seq<nat>,
                                          query: Bounds, visited: set<nat>, best: nat, i: nat)
    requires WellFormed(nodes, root, parent, depth) && i < |nodes|
    requires Searching(nodes, root, parent, query, visited, [], best)
    ensures i in visited || nodes[i].maxOrder <= best || !query.Intersects(nodes[i].bounds)
    decreases depth[i]
  {
    assert NodeShapeOk(nodes, root, parent, depth, i);
    if i != root {
      var p := parent[i];
      assert NodeShapeOk(nodes, root, parent, depth, p);
      SearchComplete(nodes, root, parent, depth, query, visited, best, p);
      assert LabelOk(nodes, p) && Covers(nodes[p], nodes[i]);
      if query.Intersects(nodes[i].bounds) {
        PruningIsSound(query, nodes[p].bounds, nodes[i].bounds);
      }
    }
  }

  /** So the best order found is the answer of the linear scan. */
  lemma SearchIsScan(nodes: seq<Node>, root: nat, parent: seq<nat>, depth: seq<nat>,
                     query: Bounds, visited: set<nat>, best: nat)
    requires WellFormed(nodes, root, parent, depth)
    requires Searching(nodes, root, parent, query, visited, [], best)
    ensures best == MaxIntersecting(Leaves(nodes), query)
  {
    forall i | IsLeaf(nodes, i) && query.Intersects(nodes[i].bounds)
      ensures nodes[i].kind.order <= best
    {
      SearchComplete(nodes, root, parent, depth, query, visited, best, i);
      assert LabelOk(nodes, i);
    }
    BestLeafIsMax(nodes, query, best);
  }

  /** A bound on the intersecting leaf nodes that is attained, or 0, is what the linear scan computes. */
  lemma BestLeafIsMax(nodes: seq<Node>, query: Bounds, best: nat)
    requires forall i :: IsLeaf(nodes, i) && query.Intersects(nodes[i].bounds) ==> nodes[i].kind.order <= best
    requires best == 0
          || exists i :: IsLeaf(nodes, i) && query.Intersects(nodes[i].bounds) && nodes[i].kind.order == best
    ensures best == MaxIntersecting(Leaves(nodes), query)
  {
    var log := Leaves(nodes);
    LeavesAreLeafNodes(nodes);
    assert IsMaxIntersecting(log, query, best) by {
      forall k | 0 <= k < |log| && query.Intersects(log[k].bounds)
        ensures log[k].order <= best
      {
        assert log[k] in log;
        var i :| IsLeaf(nodes, i) && log[k] == Entry(nodes[i].bounds, nodes[i].kind.order);
      }
      if best != 0 {
        var i :| IsLeaf(nodes, i) && query.Intersects(nodes[i].bounds) && nodes[i].kind.order == best;
        assert Entry(nodes[i].bounds, best) in log;
      }
    }
    MaxIntersectingIsUnique(log, query, best);
  }

  ghost function Indices(n: nat): (r: set<nat>)
    ensures forall i :: i in r <==> 0 <= i < n
  {
    if n == 0 then {} else Indices(n - 1) + {n - 1}
  }

  /** The children that can still improve on `best`, in order. */
  function Above(nodes: seq<Node>, children: seq<nat>, best: nat): (r: seq<nat>)
    requires forall c :: c in children ==> c < |nodes|
    ensures forall c :: c in r <==> c in children && nodes[c].maxOrder > best
    ensures (forall j, k :: 0 <= j < k < |children| ==> children[j] != children[k]) ==>
              forall j, k :: 0 <= j < k < |r| ==> r[j] != r[k]
  {
    if children == [] then []
    else
      var n := |children| - 1;
      assert forall c :: c in children[..n] ==> c in children;
      var rest := Above(nodes, children[..n], best);
      assert children == children[..n] + [children[n]] && children[n] in children;
      if nodes[children[n]].maxOrder > best then rest + [children[n]] else rest
  }

  lemma DescentSurvives(base: seq<Node>, after: seq<Node>, root: nat, path: seq<nat>, at: nat)
    requires IsDescent(base, root, path, at) && |base| <= |after|
    requires forall t, u :: 0 <= t < u < |path| ==> path[t] != path[u]
    requires forall i :: 0 <= i < |base| && i != at ==> after[i] == base[i]
    ensures IsDescent(after, root, path, at)
  {
    forall t, u | 0 <= t < u < |path| && u == t + 1
      ensures Edge(after, path[t], path[u])
    {
      assert Edge(base, path[t], path[u]);
    }
  }

  // ---------- The nodes an insertion writes ----------

  /** `node` with the leaf `leaf` as a further child: last when it is the new maximum, else next to last. */
  function Linked(node: Node, leaf: nat, bounds: Bounds, order: nat): Node
    requires node.kind.Internal? && |node.kind.children| > 0
  {
    var last := |node.kind.children|;
    var children := node.kind.children + [leaf];
    Node(node.bounds.Union(bounds), Max(node.maxOrder, order),
         Internal(if order <= node.maxOrder then Swap(children, last - 1, last) else children))
  }

  /** An internal node over the existing leaf `sibling` and the new leaf, the larger order last. */
  function Paired(sibling: Node, siblingIdx: nat, leaf: nat, bounds: Bounds, order: nat): Node {
    Node(sibling.bounds.Union(bounds), Max(sibling.maxOrder, order),
         Internal(if order > sibling.maxOrder then [siblingIdx, leaf] else [leaf, siblingIdx]))
  }

  /** `node` with the pair in place of its child at `pos`, swapped to the end when it carries a new maximum. */
  function Replaced(node: Node, pos: nat, pair: Node, pairIdx: nat): Node
    requires node.kind.Internal? && pos < |node.kind.children|
  {
    var children := node.kind.children[pos := pairIdx];
    node.(kind := Internal(if pair.maxOrder > node.maxOrder then Swap(children, pos, |children| - 1) else children))
  }

  /** `after` stores the leaves of `base` where they were, and one more. */
  ghost predicate LeafAdded(base: seq<Node>, after: seq<Node>, bounds: Bounds, order: nat) {
    && |base| < |after|
    && (forall i :: 0 <= i < |base| ==>
          (base[i].kind.Leaf? <==> after[i].kind.Leaf?) && (base[i].kind.Leaf? ==> base[i] == after[i]))
    && after[|base|] == Node(bounds, order, Leaf(order))
    && (forall i :: |base| < i < |after| ==> after[i].kind.Internal?)
  }

  ghost predicate IsMaxLeaf(nodes: seq<Node>, m: nat) {
    && IsLeaf(nodes, m)
    && forall i :: IsLeaf(nodes, i) ==> nodes[i].kind.order <= nodes[m].kind.order
  }

  lemma MaxLeafAfter(base: seq<Node>, m: Option<nat>, after: seq<Node>, bounds: Bounds, order: nat)
    requires LeafAdded(base, after, bounds, order)
    requires m.Some? ==> IsMaxLeaf(base, m.value)
    requires m.None? ==> base == []
    ensures m.Some? ==> IsLeaf(after, m.value) && after[m.value] == base[m.value]
    ensures m.Some? && base[m.value].kind.order >= order ==> IsMaxLeaf(after, m.value)
    ensures m.None? || base[m.value].kind.order < order ==> IsMaxLeaf(after, |base|)
  {
    forall i | IsLeaf(after, i)
      ensures i == |base| || IsLeaf(base, i)
    {
    }
  }

  lemma {:induction false} LeafAddedContents(base: seq<Node>, after: seq<Node>, bounds: Bounds, order: nat)
    requires LeafAdded(base, after, bounds, order)
    ensures Leaves(after) == Leaves(base) + [Entry(bounds, order)]
    decreases |after|
  {
    var n := |after| - 1;
    if n == |base| {
      LeavesUntouched(base, after[..n]);
    } else {
      LeafAddedContents(base, after[..n], bounds, order);
    }
  }

  lemma SplitShape(base: seq<Node>, root: nat, parent: seq<nat>, depth: seq<nat>,
                   at: nat, pos: nat, leaf: Node, pair: Node)
    requires Shape(base, root, parent, depth) && at < |base| && leaf.kind.Leaf?
    requires base[at].kind.Internal? && pos < |base[at].kind.children| && IsLeaf(base, base[at].kind.children[pos])
    requires var s := base[at].kind.children[pos];
             pair.kind.Internal? && (pair.kind.children == [s, |base|] || pair.kind.children == [|base|, s])
    ensures var s := base[at].kind.children[pos];
            Shape((base + [leaf, pair])[at := Replaced(base[at], pos, pair, |base| + 1)], root,
                  parent[s := |base| + 1] + [|base| + 1, at],
                  depth[s := depth[at] + 2] + [depth[at] + 2, depth[at] + 1])
  {
    var s := base[at].kind.children[pos];
    var updated := Replaced(base[at], pos, pair, |base| + 1);
    ReplacedIsReplaced(base[at], pos, pair, |base| + 1);
    ShapeAfterSplit(base, root, parent, depth, leaf, pair, at, pos, updated, s);
  }

  lemma ReplacedIsReplaced(node: Node, pos: nat, pair: Node, pairIdx: nat)
    requires node.kind.Internal? && pos < |node.kind.children|
    ensures var updated := Replaced(node, pos, pair, pairIdx);
            updated.kind.Internal? && ReplacedChildren(node.kind.children, pos, pairIdx, updated.kind.children)
  {
    var ch := node.kind.children;
    var children := ch[pos := pairIdx];
    assert Swap(children, pos, |ch| - 1) == ch[pos := ch[|ch| - 1]][|ch| - 1 := pairIdx];
  }

  lemma ReplacedIsReady(base: seq<Node>, at: nat, pos: nat, bounds: Bounds, order: nat, pair: Node, after: seq<Node>)
    requires at < |base| && LabelOk(base, at) && base[at].kind.Internal? && at !in base[at].kind.children
    requires forall j, k :: 0 <= j < k < |base[at].kind.children| ==>
                              base[at].kind.children[j] != base[at].kind.children[k]
    requires pos < |base[at].kind.children| && IsLeaf(base, base[at].kind.children[pos])
    requires var s := base[at].kind.children[pos]; pair == Paired(base[s], s, |base|, bounds, order)
    requires after == (base + [Node(bounds, order, Leaf(order)), pair])[at := Replaced(base[at], pos, pair, |base| + 1)]
    ensures ReadyToAbsorb(after, at, bounds, order)
    ensures after[at].bounds == base[at].bounds && after[at].maxOrder == base[at].maxOrder
  {
    assert after[|base| + 1] == pair;
    ReadyAfterSplit(base, at, pos, after, bounds, order);
  }

  lemma PairIsOk(base: seq<Node>, s: nat, bounds: Bounds, order: nat, pair: Node, after: seq<Node>)
    requires s < |base| && base[s].kind.Leaf? && LabelOk(base, s) && pair == Paired(base[s], s, |base|, bounds, order)
    requires |after| == |base| + 2 && after[s] == base[s]
    requires after[|base|] == Node(bounds, order, Leaf(order)) && after[|base| + 1] == pair
    ensures LabelOk(after, |base|) && LabelOk(after, |base| + 1)
  {
  }

  lemma SplitClimbing(base: seq<Node>, root: nat, parent: seq<nat>, depth: seq<nat>, path: seq<nat>,
                      at: nat, pos: nat, bounds: Bounds, order: nat, pair: Node)
    requires WellFormed(base, root, parent, depth) && IsDescent(base, root, path, at)
    requires base[at].kind.Internal? && pos < |base[at].kind.children| && IsLeaf(base, base[at].kind.children[pos])
    requires var s := base[at].kind.children[pos]; pair == Paired(base[s], s, |base|, bounds, order)
    ensures Climbing((base + [Node(bounds, order, Leaf(order)), pair])[at := Replaced(base[at], pos, pair, |base| + 1)],
                     path, |path|, bounds, order)
  {
    var s := base[at].kind.children[pos];
    var after := (base + [Node(bounds, order, Leaf(order)), pair])[at := Replaced(base[at], pos, pair, |base| + 1)];
    assert NodeShapeOk(base, root, parent, depth, at) && LabelOk(base, at);
    ReplacedIsReady(base, at, pos, bounds, order, pair, after);
    assert LabelOk(base, s);
    PairIsOk(base, s, bounds, order, pair, after);
    StartClimb(base, root, parent, depth, path, at, after, bounds, order);
  }

  /** Splitting a full node leaves a state from which the climb succeeds. */
  lemma SplitIsReady(base: seq<Node>, root: nat, parent: seq<nat>, depth: seq<nat>, path: seq<nat>,
                     at: nat, pos: nat, bounds: Bounds, order: nat, pair: Node, after: seq<Node>)
    requires WellFormed(base, root, parent, depth) && IsDescent(base, root, path, at)
    requires base[at].kind.Internal? && pos < |base[at].kind.children| && IsLeaf(base, base[at].kind.children[pos])
    requires var s := base[at].kind.children[pos]; pair == Paired(base[s], s, |base|, bounds, order)
    requires after == (base + [Node(bounds, order, Leaf(order)), pair])[at := Replaced(base[at], pos, pair, |base| + 1)]
    ensures var s := base[at].kind.children[pos];
            ClimbState(after, root, parent[s := |base| + 1] + [|base| + 1, at],
                       depth[s := depth[at] + 2] + [depth[at] + 2, depth[at] + 1], path, |path|, bounds, order)
    ensures LeafAdded(base, after, bounds, order)
  {
    SplitShape(base, root, parent, depth, at, pos, Node(bounds, order, Leaf(order)), pair);
    SplitClimbing(base, root, parent, depth, path, at, pos, bounds, order, pair);
    DescentLinks(base, root, parent, depth, path, at);
    DescentSurvives(base, after, root, path, at);
  }

  lemma LinkShape(base: seq<Node>, root: nat, parent: seq<nat>, depth: seq<nat>,
                  at: nat, leaf: Node, bounds: Bounds, order: nat)
    requires Shape(base, root, parent, depth) && at < |base| && leaf.kind.Leaf?
    requires base[at].kind.Internal? && 0 < |base[at].kind.children| < MAX_CHILDREN
    ensures Shape((base + [leaf])[at := Linked(base[at], |base|, bounds, order)], root,
                  parent + [at], depth + [depth[at] + 1])
  {
    LinkedIsLinked(base[at], |base|, bounds, order);
    ShapeAfterLink(base, root, parent, depth, leaf, at, Linked(base[at], |base|, bounds, order));
  }

  lemma LinkedIsLinked(node: Node, leaf: nat, bounds: Bounds, order: nat)
    requires node.kind.Internal? && |node.kind.children| > 0
    ensures var ch := node.kind.children;
            Linked(node, leaf, bounds, order) ==
            Node(node.bounds.Union(bounds), Max(node.maxOrder, order),
                 Internal(if order <= node.maxOrder then ch[..|ch| - 1] + [leaf, ch[|ch| - 1]] else ch + [leaf]))
  {
    var ch := node.kind.children;
    assert Swap(ch + [leaf], |ch| - 1, |ch|) == ch[..|ch| - 1] + [leaf, ch[|ch| - 1]];
  }

  lemma LinkedIsReady(base: seq<Node>, root: nat, parent: seq<nat>, depth: seq<nat>, at: nat, bounds: Bounds, order: nat,
                      after: seq<Node>)
    requires WellFormed(base, root, parent, depth) && at < |base|
    requires base[at].kind.Internal? && 0 < |base[at].kind.children|
    requires after == (base + [Node(bounds, order, Leaf(order))])[at := Linked(base[at], |base|, bounds, order)]
    ensures ReadyToAbsorb(after, at, bounds, order) && LabelOk(after, |base|)
    ensures after[at].bounds == base[at].bounds.Union(bounds) && after[at].maxOrder == Max(base[at].maxOrder, order)
  {
    assert NodeShapeOk(base, root, parent, depth, at) && LabelOk(base, at);
    LinkedIsLinked(base[at], |base|, bounds, order);
    ReadyAfterLink(base, at, after, bounds, order);
    assert after[|base|] == Node(bounds, order, Leaf(order));
  }

  lemma LinkClimbing(base: seq<Node>, root: nat, parent: seq<nat>, depth: seq<nat>, path: seq<nat>,
                     at: nat, bounds: Bounds, order: nat)
    requires WellFormed(base, root, parent, depth) && IsDescent(base, root, path, at)
    requires base[at].kind.Internal? && 0 < |base[at].kind.children|
    ensures Climbing((base + [Node(bounds, order, Leaf(order))])[at := Linked(base[at], |base|, bounds, order)],
                     path, |path|, bounds, order)
  {
    var after := (base + [Node(bounds, order, Leaf(order))])[at := Linked(base[at], |base|, bounds, order)];
    LinkedIsReady(base, root, parent, depth, at, bounds, order, after);
    StartClimb(base, root, parent, depth, path, at, after, bounds, order);
  }

  /** So does linking the leaf to a node with room. */
  lemma LinkIsReady(base: seq<Node>, root: nat, parent: seq<nat>, depth: seq<nat>, path: seq<nat>,
                    at: nat, bounds: Bounds, order: nat, after: seq<Node>)
    requires WellFormed(base, root, parent, depth) && IsDescent(base, root, path, at)
    requires base[at].kind.Internal? && 0 < |base[at].kind.children| < MAX_CHILDREN
    requires after == (base + [Node(bounds, order, Leaf(order))])[at := Linked(base[at], |base|, bounds, order)]
    ensures ClimbState(after, root, parent + [at], depth + [depth[at] + 1], path, |path|, bounds, order)
    ensures LeafAdded(base, after, bounds, order)
  {
    LinkShape(base, root, parent, depth, at, Node(bounds, order, Leaf(order)), bounds, order);
    LinkClimbing(base, root, parent, depth, path, at, bounds, order);
    DescentLinks(base, root, parent, depth, path, at);
    DescentSurvives(base, after, root, path, at);
  }

  /** A leaf root and a second leaf under a new root form a tree. */
  lemma GrownRootIsOk(base: seq<Node>, parent: seq<nat>, depth: seq<nat>, bounds: Bounds, order: nat, after: seq<Node>)
    requires |base| == 1 && base[0].kind.Leaf? && WellFormed(base, 0, parent, depth)
    requires after == base + [Node(bounds, order, Leaf(order)), Paired(base[0], 0, 1, bounds, order)]
    ensures WellFormed(after, 2, [2, 2, 0], [1, 1, 0]) && LeafAdded(base, after, bounds, order)
  {
    var p: seq<nat>, d: seq<nat> := [2, 2, 0], [1, 1, 0];
    assert Shape(after, 2, p, d) by {
      assert NodeShapeOk(after, 2, p, d, 0);
      assert NodeShapeOk(after, 2, p, d, 1);
      assert after[2].kind.children[0] != after[2].kind.children[1];
      assert NodeShapeOk(after, 2, p, d, 2);
    }
    GrownRootLabels(base, bounds, order, after);
  }

  lemma GrownRootLabels(base: seq<Node>, bounds: Bounds, order: nat, after: seq<Node>)
    requires |base| == 1 && base[0].kind.Leaf? && LabelOk(base, 0)
    requires after == base + [Node(bounds, order, Leaf(order)), Paired(base[0], 0, 1, bounds, order)]
    ensures LabelOk(after, 0) && LabelOk(after, 1) && LabelOk(after, 2)
  {
    assert after[0] == base[0];
    var ch := after[2].kind.children;
    forall c | c in ch
      ensures c < |after| && Covers(after[2], after[c])
    {
      assert c == 0 || c == 1;
    }
  }

  /** What is on the stack after one turn of the search loop, and the best order found. */
  ghost predicate Stepped(nodes: seq<Node>, query: Bounds, stack: seq<nat>, best: nat, stack': seq<nat>, best': nat)
    requires |stack| > 0 && stack[|stack| - 1] < |nodes|
  {
    var rest, node := stack[..|stack| - 1], nodes[stack[|stack| - 1]];
    if node.maxOrder <= best || !query.Intersects(node.bounds) then
      stack' == rest && best' == best
    else
      match node.kind
      case Leaf(order) => stack' == rest && best' == Max(best, order)
      case Internal(children) =>
        best' == best && (forall c :: c in children ==> c < |nodes|) && stack' == rest + Above(nodes, children, best)
  }

  lemma SearchStepStack(nodes: seq<Node>, root: nat, parent: seq<nat>, depth: seq<nat>, query: Bounds,
                        visited: set<nat>, stack: seq<nat>, best: nat, stack': seq<nat>, best': nat)
    requires WellFormed(nodes, root, parent, depth) && stack != [] && stack[|stack| - 1] < |nodes|
    requires Searching(nodes, root, parent, query, visited, stack, best)
    requires Stepped(nodes, query, stack, best, stack', best')
    ensures forall c :: c in stack' ==>
              c < |nodes| && c !in visited && c != stack[|stack| - 1]
              && (c == root || parent[c] in visited || parent[c] == stack[|stack| - 1])
    ensures forall j, k :: 0 <= j < k < |stack'| ==> stack'[j] != stack'[k]
  {
    var v := stack[|stack| - 1];
    var rest := stack[..|stack| - 1];
    assert v in stack;
    assert NodeShapeOk(nodes, root, parent, depth, v);
    forall c | c in stack'
      ensures c < |nodes| && c !in visited && c != v && (c == root || parent[c] in visited || parent[c] == v)
    {
      if c in rest {
        assert c in stack;
      } else {
        assert c in nodes[v].kind.children;
        assert NodeShapeOk(nodes, root, parent, depth, c);
      }
    }
    forall j, k | 0 <= j < k < |stack'|
      ensures stack'[j] != stack'[k]
    {
      if j < |rest| <= k {
        assert stack[j] in stack && stack'[k] in nodes[v].kind.children;
        assert NodeShapeOk(nodes, root, parent, depth, stack[j]);
      }
    }
  }

  /** One turn of the search loop. */
  lemma SearchStep(nodes: seq<Node>, root: nat, parent: seq<nat>, depth: seq<nat>, query: Bounds,
                   visited: set<nat>, stack: seq<nat>, best: nat, stack': seq<nat>, best': nat)
    requires WellFormed(nodes, root, parent, depth) && stack != [] && stack[|stack| - 1] < |nodes|
    requires Searching(nodes, root, parent, query, visited, stack, best)
    requires Stepped(nodes, query, stack, best, stack', best')
    ensures Searching(nodes, root, parent, query, visited + {stack[|stack| - 1]}, stack', best')
  {
    var v := stack[|stack| - 1];
    var visited' := visited + {v};
    SearchStepStack(nodes, root, parent, depth, query, visited, stack, best, stack', best');
    assert stack == stack[..|stack| - 1] + [v] && v in stack;
    assert LabelOk(nodes, v);
    forall w | w in visited'
      ensures Explored(nodes, query, visited', stack', best', w)
    {
      if w != v {
        assert Explored(nodes, query, visited, stack, best, w);
      }
    }
    assert best' != best ==> IsLeaf(nodes, v);
  }

  /** What descending into node `i` would cost. */
  function Cost(nodes: seq<Node>, bounds: Bounds, i: nat): real
    requires i < |nodes|
  {
    bounds.Union(nodes[i].bounds).HalfPerimeter()
  }

  ghost predicate TreeOk(nodes: seq<Node>, root: Option<nat>, parent: seq<nat>, depth: seq<nat>) {
    match root
    case None => nodes == []
    case Some(r) => WellFormed(nodes, r, parent, depth)
  }

  class Tree {
    var nodes: seq<Node>
    var root: Option<nat>
    var maxLeaf: Option<nat>
    var insertPath: seq<nat>
    var searchStack: seq<nat>
    ghost var parent: seq<nat>
    ghost var depth: seq<nat>

    /** The rectangles inserted since the last `Clear`, oldest first, with their orders. */
    ghost function Contents(): seq<Entry>
      reads this
    {
      Leaves(nodes)
    }

    ghost predicate Valid()
      reads this
    {
      && TreeOk(nodes, root, parent, depth)
      && Layered(Contents())
      && (root.None? <==> maxLeaf.None?)
      && (maxLeaf.Some? ==> IsMaxLeaf(nodes, maxLeaf.value))
      && (root.Some? ==> |nodes| < 2 * |Contents()|)
    }

    constructor ()
      ensures Valid() && Contents() == []
    {
      nodes, root, maxLeaf, insertPath, searchStack := [], None, None, [], [];
    }

    method Clear()
      modifies this
      ensures Valid() && Contents() == []
    {
      nodes, root, maxLeaf, insertPath, searchStack := [], None, None, [], [];
    }

    /** Finds what the linear scan over `Contents()` finds. */
    method FindMaxOrdering(query: Bounds) returns (best: nat)
      requires Valid()
      modifies this`searchStack
      ensures best == MaxIntersecting(Contents(), query)
    {
      if root.None? {
        return 0;
      }
      var maxNode := nodes[maxLeaf.value];
      if query.Intersects(maxNode.bounds) {
        assert LabelOk(nodes, maxLeaf.value);
        BestLeafIsMax(nodes, query, maxNode.maxOrder);
        return maxNode.maxOrder;
      }
      searchStack := [root.value];
      best := 0;
      ghost var visited: set<nat> := {};
      ghost var all := Indices(|nodes|);
      while searchStack != []
        invariant Searching(nodes, root.value, parent, query, visited, searchStack, best)
        invariant visited <= all
        decreases all - visited
      {
        var top := |searchStack| - 1;
        var v := searchStack[top];
        assert v in searchStack;
        ghost var before, stackBefore, bestBefore := visited, searchStack, best;
        searchStack := searchStack[..top];
        visited := visited + {v};
        assert LabelOk(nodes, v);
        if nodes[v].maxOrder > best && query.Intersects(nodes[v].bounds) {
          match nodes[v].kind
          case Leaf(order) =>
            best := Max(best, order);
          case Internal(children) =>
            searchStack := searchStack + Above(nodes, children, best);
        }
        SearchStep(nodes, root.value, parent, depth, query, before, stackBefore, bestBefore, searchStack, best);
      }
      SearchIsScan(nodes, root.value, parent, depth, query, visited, best);
    }

    /** The child whose union with `bounds` has the least half perimeter; the first such. */
    method BestChild(children: seq<nat>, bounds: Bounds) returns (best: nat)
      requires |children| > 0 && forall k :: 0 <= k < |children| ==> children[k] < |nodes|
      ensures best < |children|
      ensures forall k :: 0 <= k < |children| ==> Cost(nodes, bounds, children[best]) <= Cost(nodes, bounds, children[k])
      ensures forall k :: 0 <= k < best ==> Cost(nodes, bounds, children[best]) < Cost(nodes, bounds, children[k])
    {
      best := 0;
      var bestCost := Cost(nodes, bounds, children[0]);
      for pos := 1 to |children|
        invariant best < pos && bestCost == Cost(nodes, bounds, children[best])
        invariant forall k :: 0 <= k < pos ==> bestCost <= Cost(nodes, bounds, children[k])
        invariant forall k :: 0 <= k < best ==> bestCost < Cost(nodes, bounds, children[k])
      {
        var cost := Cost(nodes, bounds, children[pos]);
        if cost < bestCost {
          best, bestCost := pos, cost;
        }
      }
    }

    /** Walks down to an internal node whose best child is a leaf, recording the walk in `insertPath`. */
    method Descend(bounds: Bounds, ghost base: seq<Node>) returns (at: nat, pos: nat)
      requires root.Some? && WellFormed(base, root.value, parent, depth) && base[root.value].kind.Internal?
      requires |nodes| == |base| + 1 && nodes[..|base|] == base
      modifies this`insertPath
      ensures IsDescent(base, root.value, insertPath, at)
      ensures base[at].kind.Internal? && pos < |base[at].kind.children| && IsLeaf(base, base[at].kind.children[pos])
    {
      insertPath := [];
      at := root.value;
      ghost var r := root.value;
      while true
        invariant at < |base| && base[at].kind.Internal?
        invariant IsDescent(base, r, insertPath + [at], at)
        decreases |base| - depth[at]
      {
        assert nodes[at] == base[at] && NodeShapeOk(base, r, parent, depth, at);
        var children := nodes[at].kind.children;
        insertPath := insertPath + [at];
        pos := BestChild(children, bounds);
        var child := children[pos];
        assert Edge(base, at, child) && nodes[child] == base[child];
        if nodes[child].kind.Leaf? {
          return;
        }
        assert NodeShapeOk(base, r, parent, depth, child);
        at := child;
      }
    }

    /** Takes the new leaf's bounds and order into every node of `insertPath`, from the bottom up. */
    method Propagate(bounds: Bounds, order: nat)
      requires root.Some? && ClimbState(nodes, root.value, parent, depth, insertPath, |insertPath|, bounds, order)
      modifies this`nodes
      ensures WellFormed(nodes, root.value, parent, depth) && SameLeaves(old(nodes), nodes)
    {
      var updatedChild: Option<nat> := None;
      var j := |insertPath|;
      while j > 0
        invariant 0 <= j <= |insertPath|
        invariant ClimbState(nodes, root.value, parent, depth, insertPath, j, bounds, order)
        invariant updatedChild == ChildOnPath(insertPath, j)
        invariant SameLeaves(old(nodes), nodes)
      {
        ClimbFacts(nodes, root.value, parent, depth, insertPath, j, bounds, order);
        var i := insertPath[j - 1];
        var updated := Updated(nodes[i], updatedChild, bounds, order);
        UpdatedIsAbsorbed(nodes[i], updatedChild, bounds, order);
        ClimbStep(nodes, root.value, parent, depth, insertPath, j, bounds, order, updated);
        nodes := nodes[i := updated];
        updatedChild := Some(i);
        j := j - 1;
      }
    }

    /** Adds a leaf, without searching for its order. */
    method InsertLeaf(bounds: Bounds, order: nat) returns (leaf: nat)
      requires TreeOk(nodes, root, parent, depth)
      modifies this`nodes, this`root, this`insertPath, this`parent, this`depth
      ensures TreeOk(nodes, root, parent, depth) && root.Some? && leaf == |old(nodes)|
      ensures LeafAdded(old(nodes), nodes, bounds, order)
      ensures |nodes| <= |old(nodes)| + if old(root).None? then 1 else 2
    {
      ghost var base := nodes;
      leaf := |nodes|;
      nodes := nodes + [Node(bounds, order, Leaf(order))];
      if root.None? {
        root, parent, depth := Some(leaf), [0], [0];
        assert NodeShapeOk(nodes, 0, parent, depth, 0);
        return;
      }
      ghost var r := root.value;
      RootLeafIsAlone(base, r, parent, depth);
      if nodes[root.value].kind.Leaf? {
        var newRoot := |nodes|;
        nodes := nodes + [Paired(nodes[root.value], root.value, leaf, bounds, order)];
        GrownRootIsOk(base, parent, depth, bounds, order, nodes);
        root, parent, depth := Some(newRoot), [2, 2, 0], [1, 1, 0];
        return;
      }
      var at, pos := Descend(bounds, base);
      if |nodes[at].kind.children| < MAX_CHILDREN {
        LinkLeaf(at, bounds, order, base);
      } else {
        SplitLeaf(at, pos, bounds, order, base);
      }
      Propagate(bounds, order);
    }

    /** Hangs the new leaf, last in `nodes`, directly below `at`, which has room. */
    method LinkLeaf(at: nat, bounds: Bounds, order: nat, ghost base: seq<Node>)
      requires root.Some? && WellFormed(base, root.value, parent, depth)
      requires IsDescent(base, root.value, insertPath, at)
      requires base[at].kind.Internal? && 0 < |base[at].kind.children| < MAX_CHILDREN
      requires nodes == base + [Node(bounds, order, Leaf(order))]
      modifies this`nodes, this`parent, this`depth
      ensures ClimbState(nodes, root.value, parent, depth, insertPath, |insertPath|, bounds, order)
      ensures LeafAdded(base, nodes, bounds, order) && |nodes| == |base| + 1
    {
      var leaf := |nodes| - 1;
      ghost var p, d := parent, depth;
      nodes := nodes[at := Linked(nodes[at], leaf, bounds, order)];
      parent, depth := p + [at], d + [d[at] + 1];
      LinkIsReady(base, root.value, p, d, insertPath, at, bounds, order, nodes);
    }

    /** `at` is full: the new leaf, last in `nodes`, and the leaf at `pos` go under a new node in that place. */
    method SplitLeaf(at: nat, pos: nat, bounds: Bounds, order: nat, ghost base: seq<Node>)
      requires root.Some? && WellFormed(base, root.value, parent, depth)
      requires IsDescent(base, root.value, insertPath, at)
      requires base[at].kind.Internal? && pos < |base[at].kind.children| && IsLeaf(base, base[at].kind.children[pos])
      requires nodes == base + [Node(bounds, order, Leaf(order))]
      modifies this`nodes, this`parent, this`depth
      ensures ClimbState(nodes, root.value, parent, depth, insertPath, |insertPath|, bounds, order)
      ensures LeafAdded(base, nodes, bounds, order) && |nodes| == |base| + 2
    {
      var leaf := |nodes| - 1;
      ghost var p, d := parent, depth;
      var sibling := nodes[at].kind.children[pos];
      var pair := Paired(nodes[sibling], sibling, leaf, bounds, order);
      var pairIdx := |nodes|;
      nodes := nodes + [pair];
      nodes := nodes[at := Replaced(nodes[at], pos, pair, pairIdx)];
      parent, depth := p[sibling := leaf + 1] + [leaf + 1, at], d[sibling := d[at] + 2] + [d[at] + 2, d[at] + 1];
      SplitIsReady(base, root.value, p, d, insertPath, at, pos, bounds, order, pair, nodes);
    }

    /** One above the highest order among the rectangles it intersects, exactly as the linear scan has it. */
    method Insert(bounds: Bounds) returns (order: nat)
      requires Valid()
      modifies this
      ensures Valid()
      ensures order == MaxIntersecting(old(Contents()), bounds) + 1
      ensures Contents() == old(Contents()) + [Entry(bounds, order)]
      ensures bounds.HasArea() && AllHaveArea(old(Contents())) && Apart(old(Contents()), bounds) ==> order == 1
    {
      if bounds.HasArea() && AllHaveArea(Contents()) {
        OrderByInterior(Contents(), bounds);
      }
      var maxIntersecting := FindMaxOrdering(bounds);
      order := maxIntersecting + 1;
      ghost var base, log := nodes, Contents();
      LayeredPush(log, bounds);
      var leaf := InsertLeaf(bounds, order);
      LeafAddedContents(base, nodes, bounds, order);
      MaxLeafAfter(base, maxLeaf, nodes, bounds, order);
      UpdateMaxLeaf(leaf, order);
      assert Contents() == log + [Entry(bounds, order)];
    }

    /** Keeps `maxLeaf` on a leaf of largest order. */
    method UpdateMaxLeaf(leaf: nat, order: nat)
      requires TreeOk(nodes, root, parent, depth) && root.Some? && leaf < |nodes|
      requires maxLeaf.Some? ==> IsLeaf(nodes, maxLeaf.value)
      requires maxLeaf.Some? && nodes[maxLeaf.value].kind.order >= order ==> IsMaxLeaf(nodes, maxLeaf.value)
      requires maxLeaf.None? || nodes[maxLeaf.value].kind.order < order ==> IsMaxLeaf(nodes, leaf)
      modifies this`maxLeaf
      ensures maxLeaf.Some? && IsMaxLeaf(nodes, maxLeaf.value)
    {
      assert maxLeaf.Some? ==> LabelOk(nodes, maxLeaf.value);
      if maxLeaf.None? || nodes[maxLeaf.value].maxOrder < order {
        maxLeaf := Some(leaf);
      }
    }
  }

  /** The first position of `x` in `s`. */
  function IndexOf(s: seq<nat>, x: nat): (k: nat)
    requires x in s
    ensures k < |s| && s[k] == x && x !in s[..k]
  {
    if s[0] == x then 0 else
      assert s == [s[0]] + s[1..];
      var k := IndexOf(s[1..], x) + 1;
      assert s[..k] == [s[0]] + s[1..][..k - 1];
      k
  }
}
