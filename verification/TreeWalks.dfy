/**
  Trees whose nodes only know their parent, their children's list and their place in it, and the walks
  over them without a stack: `device.c`, and `devicetree_free` and `devicetree_enumerate` of `devicetree.c`.
 */
module TreeWalks {

  /** `struct devicetree_prop`, of which only the node that it belongs to is modelled. */
  class Property {
    var node: TreeNode?

    constructor ()
      ensures node == null
    {
      node := null;
    }
  }

  /** The links of `struct device` and `struct devicetree_node`; at either end of a list stands null. */
  class TreeNode {
    var parent: TreeNode?
    var firstChild: TreeNode?
    var lastChild: TreeNode?
    var next: TreeNode?
    var props: seq<Property>

    constructor (props: seq<Property>)
      ensures parent == firstChild == lastChild == next == null && this.props == props
    {
      parent, firstChild, lastChild, next := null, null, null, null;
      this.props := props;
    }
  }

  /**
    A tree in pre-order: the nodes below the one at `i` are those before `end[i]`. `up` is the place of
    the parent, `last` that of the last child.
   */
  datatype Layout = Layout(order: seq<TreeNode>, end: seq<nat>, up: seq<nat>, last: seq<nat>, depth: seq<nat>) {

    ghost predicate At(i: nat) {
      && i < |order| == |end| == |up| == |last| == |depth|
      && i < end[i] <= |order|
      && (i > 0 ==> up[i] < i && end[i] <= end[up[i]] <= |order| && depth[i] == depth[up[i]] + 1)
      && (i > 0 && end[i] < end[up[i]] ==> up[end[i]] == up[i])
      && (i + 1 < end[i] ==> up[i + 1] == i && i < last[i] < end[i] && up[last[i]] == i && end[last[i]] == end[i])
    }

    /** The node at `j` is below the one at `i`. */
    ghost predicate Nested(i: nat, j: nat) {
      i < |end| && j < |up| && j < |end| && i <= up[j] && end[j] <= end[i]
    }

    ghost predicate Ok() {
      && |order| > 0 && |order| == |end| == |up| == |last| == |depth| && end[0] == |order| && depth[0] == 0
      && up[0] == 0
      && (forall i {:trigger At(i)} :: 0 <= i < |order| ==> At(i))
      && (forall i, j :: 0 <= i < j < |order| ==> order[i] != order[j])
      && (forall i, j {:trigger Nested(i, j)} :: 0 <= i < j < |order| && j < end[i] ==> Nested(i, j))
    }

    ghost predicate LinkedAt(i: nat)
      requires At(i)
      reads order
    {
      var x := order[i];
      && (if i == 0 then x.parent == null && x.next == null
          else x.parent == order[up[i]] && x.next == if end[i] < end[up[i]] then order[end[i]] else null)
      && (if i + 1 < end[i] then x.firstChild == order[i + 1] && x.lastChild == order[last[i]]
          else x.firstChild == null && x.lastChild == null)
    }

    /** The nodes' links are those of the tree. */
    ghost predicate Linked()
      reads order
    {
      Ok() && forall i {:trigger LinkedAt(i)} :: 0 <= i < |order| && At(i) ==> LinkedAt(i)
    }
  }

  /** `print_devices`: every device, in pre-order, with its true depth; the root has depth 1. */
  method PrintDevices(root: TreeNode, ghost t: Layout) returns (lines: seq<(TreeNode, nat)>)
    requires t.Linked() && t.order[0] == root
    ensures |lines| == |t.order|
    ensures forall i :: 0 <= i < |lines| ==> lines[i] == (t.order[i], t.depth[i] + 1)
  {
    hide *;
    var device: TreeNode, depth: nat := root, 1;
    lines := [];
    ghost var k: nat := 0;
    Start(t);
    DepthIs(t, 0);
    while true
      invariant k < |t.order| == |t.depth| && device == t.order[k] && depth == t.depth[k] + 1 && |lines| == k
      invariant forall i :: 0 <= i < |lines| ==> lines[i] == (t.order[i], t.depth[i] + 1)
      decreases |t.order| - k
    {
      lines := lines + [(device, depth)];
      NodeIs(t, k);
      DepthIs(t, k);
      if device.firstChild != null {
        depth := depth + 1;
        device := device.firstChild;
      } else {
        ghost var c: nat := k;
        while device.parent != null && device.next == null
          invariant c <= k < |t.order| == |t.depth| == |t.end| && device == t.order[c]
          invariant depth == t.depth[c] + 1 && t.end[c] == k + 1
          decreases c
        {
          NodeIs(t, c);
          DepthIs(t, c);
          device := device.parent;
          c := t.up[c];
          assert depth > 1;
          depth := depth - 1;
        }
        NodeIs(t, c);
        DepthIs(t, c);
        if device.parent == null {
          assert depth == 1;
          return;
        }
        device := device.next;
      }
      k := k + 1;
    }
  }

  /** What the depths of a node, its next sibling and its first child are. */
  lemma DepthIs(t: Layout, i: nat)
    requires t.Linked() && i < |t.order|
    ensures |t.order| == |t.end| == |t.up| == |t.depth| && i < t.end[i] <= |t.order| && (i > 0 ==> t.up[i] < i)
    ensures t.depth[i] == if i == 0 then 0 else t.depth[t.up[i]] + 1
    ensures i > 0 && t.end[i] < t.end[t.up[i]] ==> t.end[i] < |t.order| && t.depth[t.end[i]] == t.depth[i]
    ensures i + 1 < t.end[i] ==> t.depth[i + 1] == t.depth[i] + 1
  {
    assert t.At(i);
    assert i > 0 && t.end[i] < t.end[t.up[i]] ==> t.At(t.end[i]);
    assert i + 1 < t.end[i] ==> t.At(i + 1);
  }

  /**
    The visits of a walk: visit `m` is to the node at `seen[m]`. Those visited are the ones that end at `k`
    or before, each once, and none before its children; of those that end at `k` only the ones from `c` on.
   */
  ghost predicate Visits(t: Layout, out: seq<TreeNode>, seen: seq<nat>, from: nat, k: nat, c: nat)
    requires t.Ok()
  {
    && |out| == |seen|
    && (forall m :: 0 <= m < |seen| ==> from <= seen[m] < |t.order| && out[m] == t.order[seen[m]])
    && (forall i {:trigger i in seen} :: from <= i < |t.order| ==> (i in seen <==>
          t.end[i] < k || (t.end[i] == k && c <= i)))
    && (forall m, m' :: 0 <= m < m' < |seen| ==> seen[m] != seen[m'] && t.up[seen[m']] != seen[m])
  }

  /** One more visit, to the innermost node that ends at `k` and was not visited yet. */
  lemma OneVisit(t: Layout, out: seq<TreeNode>, seen: seq<nat>, from: nat, k: nat, c: nat)
    requires t.Ok() && Visits(t, out, seen, from, k, c + 1) && from <= c < |t.order| && t.end[c] == k
    ensures Visits(t, out + [t.order[c]], seen + [c], from, k, c)
  {
    var seen' := seen + [c];
    forall i: nat | from <= i < |t.order|
      ensures i in seen' <==> t.end[i] < k || (t.end[i] == k && c <= i)
    {
      assert i in seen' <==> i in seen || i == c;
    }
    forall m | 0 <= m < |seen|
      ensures seen[m] != c && t.up[c] != seen[m]
    {
      assert seen[m] in seen;
      assert t.At(c);
    }
  }

  /** No node between a node and its parent ends where the parent ends. */
  lemma Climb(t: Layout, out: seq<TreeNode>, seen: seq<nat>, from: nat, k: nat, c: nat)
    requires t.Ok() && 0 < c < |t.order| && t.At(c) && t.end[c] == k == t.end[t.up[c]]
    requires Visits(t, out, seen, from, k, c)
    ensures t.up[c] < c && Visits(t, out, seen, from, k, t.up[c] + 1)
  {
    forall i: nat | t.up[c] < i < c
      ensures t.end[i] != k
    {
      assert !t.Nested(i, c);
    }
  }

  /** The walk goes on at `k`, where nothing ends. */
  lemma GoOn(t: Layout, out: seq<TreeNode>, seen: seq<nat>, from: nat, k: nat, c: nat)
    requires t.Ok() && k < |t.order| && Visits(t, out, seen, from, k, c)
    requires forall i {:trigger t.end[i]} :: 0 <= i < c && i < |t.order| ==> t.end[i] != k
    ensures Visits(t, out, seen, from, k + 1, k + 1)
  {
    forall i: nat | from <= i < |t.order|
      ensures i in seen <==> t.end[i] < k + 1 || (t.end[i] == k + 1 && k + 1 <= i)
    {
      assert t.At(i);
    }
  }

  /** With a next sibling, a node is the outermost that ends where it ends. */
  lemma Outermost(t: Layout, c: nat)
    requires t.Ok() && 0 < c < |t.order| && t.At(c) && t.end[c] < t.end[t.up[c]]
    ensures forall i {:trigger t.end[i]} :: 0 <= i < c ==> t.end[i] != t.end[c]
  {
    forall i: nat | i < c
      ensures t.end[i] != t.end[c]
    {
      assert c < t.end[i] ==> t.Nested(i, c);
      if i < t.up[c] {
        assert t.end[i] > t.up[c] ==> t.Nested(i, t.up[c]);
      }
    }
  }

  /** Nothing ends right before a first child. */
  lemma FirstChildInside(t: Layout, k: nat)
    requires t.Ok() && k < |t.order| && t.At(k) && k + 1 < t.end[k]
    ensures forall i {:trigger t.end[i]} :: 0 <= i < k + 1 ==> t.end[i] != k + 1
  {
    forall i: nat | i < k + 1
      ensures t.end[i] != k + 1
    {
      assert i < k && k < t.end[i] ==> t.Nested(i, k);
    }
  }

  /**
    Every node from `from` on is visited exactly once, children before their parents; visit `m` is to the one
    at `seen[m]`.
   */
  ghost predicate EachOnce(t: Layout, out: seq<TreeNode>, seen: seq<nat>, from: nat)
    requires t.Ok()
  {
    && |out| == |seen|
    && (forall m :: 0 <= m < |seen| ==> from <= seen[m] < |t.order| && out[m] == t.order[seen[m]])
    && (forall i {:trigger i in seen} :: from <= i < |t.order| ==> i in seen)
    && (forall m, m' :: 0 <= m < m' < |seen| ==> seen[m] != seen[m'] && t.up[seen[m']] != seen[m])
  }

  lemma AllVisited(t: Layout, out: seq<TreeNode>, seen: seq<nat>, from: nat)
    requires t.Ok() && Visits(t, out, seen, from, |t.order|, from)
    ensures EachOnce(t, out, seen, from)
  {
    forall i: nat | from <= i < |t.order|
      ensures i in seen
    {
      assert t.At(i);
    }
  }

  /** What the links of a node are. */
  lemma NodeIs(t: Layout, i: nat)
    requires t.Linked() && i < |t.order|
    ensures t.Ok() && t.At(i) && |t.order| == |t.end| == |t.up| && i < t.end[i] <= |t.order|
    ensures t.order[i].parent == null <==> i == 0
    ensures i == 0 ==> t.end[i] == |t.order|
    ensures i > 0 ==> t.up[i] < i && t.end[i] <= t.end[t.up[i]] && t.order[i].parent == t.order[t.up[i]]
    ensures i > 0 ==> t.order[i].next == if t.end[i] < t.end[t.up[i]] then t.order[t.end[i]] else null
    ensures t.order[i].firstChild == if i + 1 < t.end[i] then t.order[i + 1] else null
  {
    assert t.At(i) && t.LinkedAt(i);
  }

  /** `devicetree_enumerate`: which nodes it offers to the handlers, in order. */
  method Enumerate(root: TreeNode, ghost t: Layout) returns (out: seq<TreeNode>)
    requires t.Linked() && t.order[0] == root
    ensures t.Ok() && exists seen :: EachOnce(t, out, seen, 1)
  {
    hide *;
    var node: TreeNode := root;
    out := [];
    ghost var seen: seq<nat> := [];
    ghost var k: nat := 0;
    Start(t);
    NodeIs(t, 0);
    FirstVisit(t);
    while true
      invariant t.Ok() && k < |t.order| && node == t.order[k] && Visits(t, out, seen, 1, k + 1, k + 1)
      decreases |t.order| - k
    {
      NodeIs(t, k);
      if node.firstChild != null {
        node := node.firstChild;
        FirstChildInside(t, k);
        GoOn(t, out, seen, 1, k + 1, k + 1);
        k := k + 1;
        continue;
      }
      ghost var c: nat := k;
      while node.parent != null && node.next == null
        invariant t.Ok() && c <= k < |t.order| == |t.end| && node == t.order[c] && t.end[c] == k + 1
        invariant Visits(t, out, seen, 1, k + 1, c + 1)
        decreases c
      {
        NodeIs(t, c);
        OneVisit(t, out, seen, 1, k + 1, c);
        out, seen := out + [node], seen + [c];
        node := node.parent;
        Climb(t, out, seen, 1, k + 1, c);
        c := t.up[c];
        NodeIs(t, c);
      }
      NodeIs(t, c);
      if node.parent == null {
        AllVisited(t, out, seen, 1);
        return;
      }
      OneVisit(t, out, seen, 1, k + 1, c);
      out, seen := out + [node], seen + [c];
      node := node.next;
      Outermost(t, c);
      GoOn(t, out, seen, 1, k + 1, c);
      k := k + 1;
    }
  }

  lemma Start(t: Layout)
    requires t.Linked()
    ensures t.Ok() && |t.order| > 0
  {
  }

  lemma FirstVisit(t: Layout)
    requires t.Ok()
    ensures Visits(t, [], [], 1, 1, 1) && t.At(0)
  {
    forall i: nat | 1 <= i < |t.order|
      ensures t.end[i] >= 2
    {
      assert t.At(i);
    }
  }

  // ----- a walk that takes the tree apart

  /** The properties of the first `n` nodes, in order. */
  ghost function PropsTo(p: seq<seq<Property>>, n: nat): seq<Property>
    requires n <= |p|
  {
    if n == 0 then [] else PropsTo(p, n - 1) + p[n - 1]
  }

  /** What the links of a node that was not released are, when those before `n` have lost their properties. */
  ghost predicate LeftAt(t: Layout, p: seq<seq<Property>>, i: nat, n: nat)
    requires t.At(i) && |p| == |t.order|
    reads t.order
  {
    var x := t.order[i];
    && (if i == 0 then x.parent == null && x.next == null
        else x.parent == t.order[t.up[i]] && x.next == if t.end[i] < t.end[t.up[i]] then t.order[t.end[i]] else null)
    && (if i < n then x.props == []
        else x.props == p[i] && x.firstChild == if i + 1 < t.end[i] then t.order[i + 1] else null)
  }

  /** From the nodes up to `c` that were not released, the lists of children begin with the next of them. */
  ghost predicate PathAt(t: Layout, i: nat)
    reads t.order
  {
    0 < i < |t.order| && t.At(i) && t.order[t.up[i]].firstChild == t.order[i]
  }

  /** The tree in the middle of `devicetree_free`, with the walk at the node at `c`. */
  ghost predicate Left(t: Layout, p: seq<seq<Property>>, seen: seq<nat>, alive: set<TreeNode>, n: nat, c: nat)
    reads t.order
  {
    && t.Ok() && |p| == |t.order|
    && (forall i {:trigger i in seen} :: 0 <= i < |t.order| ==> (t.order[i] in alive <==> i !in seen))
    && (forall i {:trigger LeftAt(t, p, i, n)} :: 0 <= i < |t.order| && i !in seen && t.At(i) ==> LeftAt(t, p, i, n))
    && (forall i {:trigger PathAt(t, i)} :: 0 < i <= c && i < |t.order| && i !in seen ==> PathAt(t, i))
  }

  lemma LeftIs(t: Layout, p: seq<seq<Property>>, seen: seq<nat>, alive: set<TreeNode>, n: nat, c: nat, i: nat)
    requires Left(t, p, seen, alive, n, c) && i < |t.order| && i !in seen
    ensures t.Ok() && t.At(i) && |p| == |t.order| == |t.end| == |t.up| && i < t.end[i] <= |t.order|
    ensures t.order[i] in alive
    ensures t.order[i].parent == null <==> i == 0
    ensures i == 0 ==> t.end[i] == |t.order|
    ensures i > 0 ==> t.up[i] < i && t.end[i] <= t.end[t.up[i]] && t.order[i].parent == t.order[t.up[i]]
    ensures i > 0 ==> t.order[i].next == if t.end[i] < t.end[t.up[i]] then t.order[t.end[i]] else null
    ensures i < n ==> t.order[i].props == []
    ensures i >= n ==>
      t.order[i].props == p[i] && t.order[i].firstChild == if i + 1 < t.end[i] then t.order[i + 1] else null
  {
    assert t.At(i) && LeftAt(t, p, i, n);
  }

  /** `devicetree_prop_free`: the property leaves its list, and its memory may hold anything from now on. */
  method ReleaseProp(node: TreeNode) returns (prop: Property)
    requires node.props != []
    modifies node`props, node.props[0]
    ensures prop == old(node.props)[0] && node.props == old(node.props)[1..]
  {
    prop := node.props[0];
    node.props := node.props[1..];
    prop.node := *;
  }

  /** The loop over the properties of the node that the walk has come to. */
  method ReleaseProps(node: TreeNode, ghost t: Layout, ghost p: seq<seq<Property>>, ghost seen: seq<nat>,
                      ghost alive: set<TreeNode>, ghost k: nat) returns (released: seq<Property>)
    requires Left(t, p, seen, alive, k, k) && k < |t.order| && k !in seen && t.order[k] == node
    modifies node`props, set x | x in p[k]
    ensures Left(t, p, seen, alive, k + 1, k) && released == p[k] && t.At(k)
    ensures node.firstChild == if k + 1 < t.end[k] then t.order[k + 1] else null
  {
    LeftIs(t, p, seen, alive, k, k, k);
    released := [];
    while node.props != []
      invariant released + node.props == p[k]
      decreases |node.props|
    {
      assert node in alive;
      assert p[k][|released|] == node.props[0];
      var prop := ReleaseProp(node);
      released := released + [prop];
    }
    forall i: nat | i < |t.order| && i !in seen && t.At(i)
      ensures LeftAt(t, p, i, k + 1)
    {
      assert old(LeftAt(t, p, i, k));
    }
    forall i: nat | 0 < i <= k && i < |t.order| && i !in seen
      ensures PathAt(t, i)
    {
      assert old(PathAt(t, i));
    }
  }

  /** `free` of a node: its memory may hold anything from now on. */
  method Scramble(node: TreeNode)
    modifies node
  {
    node.parent := *;
    node.firstChild := *;
    node.lastChild := *;
    node.next := *;
    node.props := *;
  }

  /** What is known of the nodes that were not released does not depend on those that were. */
  method Release(node: TreeNode, ghost t: Layout, ghost p: seq<seq<Property>>, ghost seen: seq<nat>,
                 ghost freed: seq<TreeNode>, ghost alive: set<TreeNode>, ghost k: nat, ghost u: nat, ghost c: nat)
    requires Left(t, p, seen, alive, k, u) && Visits(t, freed, seen, 0, k, c) && c < |t.order|
    requires t.order[c] == node && c in seen
    modifies node
    ensures Left(t, p, seen, alive, k, u)
  {
    Scramble(node);
    forall i: nat | i < |t.order| && i !in seen && t.At(i)
      ensures LeftAt(t, p, i, k)
    {
      assert old(LeftAt(t, p, i, k));
    }
    forall i: nat | 0 < i <= u && i < |t.order| && i !in seen
      ensures PathAt(t, i)
    {
      assert old(PathAt(t, i));
      ParentLater(t, freed, seen, k, c, i);
    }
  }

  /** The parent of a node that was not released was not released either. */
  lemma ParentLater(t: Layout, freed: seq<TreeNode>, seen: seq<nat>, k: nat, c: nat, i: nat)
    requires t.Ok() && Visits(t, freed, seen, 0, k, c) && 0 < i < |t.order| && i !in seen
    ensures t.At(i) && t.up[i] !in seen
  {
    assert t.At(i);
  }

  /** `list_remove` of a first child that is about to be released. */
  method Detach(node: TreeNode, parent: TreeNode, ghost t: Layout, ghost p: seq<seq<Property>>, ghost seen: seq<nat>,
                ghost alive: set<TreeNode>, ghost n: nat, ghost c: nat)
    requires Left(t, p, seen, alive, n, c) && 0 < c < |t.order| && c < n && c !in seen && t.At(c) && t.up[c] !in seen
    requires t.order[c] == node && t.order[t.up[c]] == parent
    modifies parent`firstChild, parent`lastChild
    ensures Left(t, p, seen + [c], alive - {node}, n, t.up[c])
    ensures parent.firstChild == if t.end[c] < t.end[t.up[c]] then t.order[t.end[c]] else null
  {
    LeftIs(t, p, seen, alive, n, c, c);
    assert node in alive && t.order[t.up[c]] in alive;
    parent.firstChild := node.next;
    if node.next == null {
      parent.lastChild := null;
    }
    var seen' := seen + [c];
    forall i: nat | i < |t.order| && i !in seen' && t.At(i)
      ensures LeftAt(t, p, i, n)
    {
      assert old(LeftAt(t, p, i, n));
    }
    forall i: nat | 0 < i <= t.up[c] && i !in seen'
      ensures PathAt(t, i)
    {
      assert old(PathAt(t, i));
    }
    forall i: nat | i < |t.order|
      ensures t.order[i] in alive - {node} <==> i !in seen'
    {
      assert i in seen' <==> i in seen || i == c;
    }
  }

  /** The walk goes down to the node at `k`. */
  lemma Descend(t: Layout, p: seq<seq<Property>>, seen: seq<nat>, freed: seq<TreeNode>, alive: set<TreeNode>, k: nat,
                u: nat)
    requires Left(t, p, seen, alive, k, u) && u < k < |t.order| && Visits(t, freed, seen, 0, k + 1, k + 1)
    requires t.At(k) && t.up[k] == u && t.order[u].firstChild == t.order[k]
    ensures Left(t, p, seen, alive, k, k) && k !in seen
  {
    forall i: nat | u < i < k
      ensures i in seen
    {
      BetweenEnds(t, u, i, k);
    }
    forall i: nat | 0 < i <= k && i !in seen
      ensures PathAt(t, i)
    {
      assert i <= u || i == k;
    }
  }

  /** What is below `u` and before its child at `k` ends before `k`. */
  lemma BetweenEnds(t: Layout, u: nat, i: nat, k: nat)
    requires t.Ok() && u < i < k < |t.order| && t.At(k) && t.up[k] == u
    ensures t.end[i] <= k
  {
    assert t.At(i);
    assert k < t.end[i] ==> t.Nested(i, k);
  }

  /**
    `devicetree_free`: every node is released exactly once, children before their parents, and the properties
    released are those of all the nodes, node by node. Released memory may hold anything.
   */
  method Free(root: TreeNode, ghost t: Layout, ghost p: seq<seq<Property>>)
    returns (freed: seq<TreeNode>, releasedProps: seq<Property>)
    requires t.Linked() && t.order[0] == root && |p| == |t.order|
    requires forall i :: 0 <= i < |p| ==> p[i] == t.order[i].props
    modifies t.order, set x | x in PropsTo(p, |p|)
    ensures t.Ok() && (exists seen :: EachOnce(t, freed, seen, 0)) && releasedProps == PropsTo(p, |p|)
  {
    hide *;
    var node: TreeNode := root;
    freed, releasedProps := [], [];
    ghost var seen: seq<nat> := [];
    ghost var alive, k: nat := set x | x in t.order, 0;
    Whole(t, p, alive);
    while true
      invariant t.Ok() && k < |t.order| == |p| && node == t.order[k] && k !in seen
      invariant Left(t, p, seen, alive, k, k) && Visits(t, freed, seen, 0, k + 1, k + 1)
      invariant releasedProps == PropsTo(p, k)
      decreases |t.order| - k
    {
      PropsNext(p, k);
      PropsWithin(p, k);
      var released := ReleaseProps(node, t, p, seen, alive, k);
      releasedProps := releasedProps + released;
      var rest: TreeNode?;
      ghost var c: nat;
      rest, freed, seen, alive, c := ReleaseLeaves(node, freed, t, p, seen, alive, k);
      if rest == null {
        AllVisited(t, freed, seen, 0);
        return;
      }
      Descend(t, p, seen, freed, alive, k + 1, c);
      node := rest.firstChild;
      k := k + 1;
    }
  }

  /** The inner loop of `devicetree_free`: nodes without children go, up to one that has a child left. */
  method ReleaseLeaves(start: TreeNode, before: seq<TreeNode>, ghost t: Layout, ghost p: seq<seq<Property>>,
                       ghost seenBefore: seq<nat>, ghost aliveBefore: set<TreeNode>, ghost k: nat)
    returns (node: TreeNode?, freed: seq<TreeNode>, ghost seen: seq<nat>, ghost alive: set<TreeNode>, ghost c: nat)
    requires t.Ok() && k < |t.order| && start == t.order[k] && k !in seenBefore
    requires Left(t, p, seenBefore, aliveBefore, k + 1, k) && Visits(t, before, seenBefore, 0, k + 1, k + 1)
    requires t.At(k) && start.firstChild == if k + 1 < t.end[k] then t.order[k + 1] else null
    modifies t.order
    ensures node == null ==> Visits(t, freed, seen, 0, |t.order|, 0) && k + 1 == |t.order|
    ensures node != null ==>
      && c < k + 1 < |t.order| && node == t.order[c] && node.firstChild == t.order[k + 1] && c !in seen
      && Left(t, p, seen, alive, k + 1, c) && Visits(t, freed, seen, 0, k + 2, k + 2) && t.At(k + 1) && t.up[k + 1] == c
  {
    hide *;
    node, freed, seen, alive, c := start, before, seenBefore, aliveBefore, k;
    LeafOrNot(t, freed, seen, k);
    LeftIs(t, p, seen, alive, k + 1, c, c);
    while node.firstChild == null
      invariant t.Ok() && c <= k < |t.order| == |t.end| && t.end[c] <= |t.order| && node == t.order[c] && c !in seen
      invariant Left(t, p, seen, alive, k + 1, c) && Reached(t, freed, seen, k, c)
      invariant node.firstChild == if k + 1 < t.end[c] then t.order[k + 1] else null
      decreases c
    {
      LeftIs(t, p, seen, alive, k + 1, c, c);
      assert node in alive && node.props == [];
      var oldNode: TreeNode := node;
      AtItsEnd(t, freed, seen, k, c);
      OneVisit(t, freed, seen, 0, k + 1, c);
      node, freed := oldNode.parent, freed + [oldNode];
      if node == null {
        seen := seen + [c];
        Scramble(oldNode);
        return;
      }
      Detach(oldNode, node, t, p, seen, alive, k + 1, c);
      seen, alive := seen + [c], alive - {oldNode};
      Release(oldNode, t, p, seen, freed, alive, k + 1, t.up[c], c);
      Upwards(t, freed, seen, k, c);
      c := t.up[c];
      LeftIs(t, p, seen, alive, k + 1, c, c);
    }
    Downwards(t, freed, seen, k, c);
  }

  /** Where the walk is with respect to what it has released, when it looks for the next child. */
  ghost predicate Reached(t: Layout, freed: seq<TreeNode>, seen: seq<nat>, k: nat, c: nat)
    requires t.Ok()
  {
    && c < |t.order| && k + 1 <= t.end[c]
    && (if k + 1 == t.end[c] then Visits(t, freed, seen, 0, k + 1, c + 1)
        else k + 1 < |t.order| && Visits(t, freed, seen, 0, k + 2, k + 2) && t.up[k + 1] == c)
  }

  lemma LeafOrNot(t: Layout, freed: seq<TreeNode>, seen: seq<nat>, k: nat)
    requires t.Ok() && k < |t.order| && Visits(t, freed, seen, 0, k + 1, k + 1)
    ensures Reached(t, freed, seen, k, k)
  {
    assert t.At(k);
    if k + 1 < t.end[k] {
      FirstChildInside(t, k);
      GoOn(t, freed, seen, 0, k + 1, k + 1);
    }
  }

  lemma AtItsEnd(t: Layout, freed: seq<TreeNode>, seen: seq<nat>, k: nat, c: nat)
    requires t.Ok() && Reached(t, freed, seen, k, c) && !(k + 1 < t.end[c])
    ensures t.end[c] == k + 1 && Visits(t, freed, seen, 0, k + 1, c + 1)
    ensures c > 0 ==> t.At(c) && t.up[c] !in seen
  {
    assert t.At(c);
  }

  lemma Upwards(t: Layout, freed: seq<TreeNode>, seen: seq<nat>, k: nat, c: nat)
    requires t.Ok() && 0 < c < |t.order| && t.At(c) && t.end[c] == k + 1 && Visits(t, freed, seen, 0, k + 1, c)
    ensures Reached(t, freed, seen, k, t.up[c]) && t.up[c] !in seen
  {
    if t.end[t.up[c]] == k + 1 {
      Climb(t, freed, seen, 0, k + 1, c);
    } else {
      Outermost(t, c);
      GoOn(t, freed, seen, 0, k + 1, c);
    }
    assert t.up[c] < c;
  }

  lemma Downwards(t: Layout, freed: seq<TreeNode>, seen: seq<nat>, k: nat, c: nat)
    requires t.Ok() && Reached(t, freed, seen, k, c) && k + 1 < t.end[c] && c <= k
    ensures k + 1 < |t.order| && Visits(t, freed, seen, 0, k + 2, k + 2) && t.At(k + 1) && t.up[k + 1] == c
  {
    assert t.At(k + 1);
  }

  lemma Whole(t: Layout, p: seq<seq<Property>>, alive: set<TreeNode>)
    requires t.Linked() && |p| == |t.order| && alive == set x | x in t.order
    requires forall i :: 0 <= i < |p| ==> p[i] == t.order[i].props
    ensures t.Ok() && |t.order| > 0 && Left(t, p, [], alive, 0, 0) && Visits(t, [], [], 0, 1, 1) && PropsTo(p, 0) == []
  {
    forall i: nat | i < |t.order|
      ensures t.At(i) && LeftAt(t, p, i, 0) && t.end[i] >= 1
    {
      assert t.At(i) && t.LinkedAt(i);
    }
  }

  lemma {:induction false} PropsWithin(p: seq<seq<Property>>, k: nat)
    requires k < |p|
    ensures forall x :: x in p[k] ==> x in PropsTo(p, |p|)
  {
    PropsUpTo(p, k, |p|);
  }

  lemma {:induction false} PropsUpTo(p: seq<seq<Property>>, k: nat, n: nat)
    requires k < n <= |p|
    ensures forall x :: x in p[k] ==> x in PropsTo(p, n)
  {
    if k < n - 1 {
      PropsUpTo(p, k, n - 1);
    }
  }

  lemma PropsNext(p: seq<seq<Property>>, k: nat)
    requires k < |p|
    ensures PropsTo(p, k + 1) == PropsTo(p, k) + p[k]
  {
  }

  // ----- how trees grow

  /** Where a node goes when one comes in at `e`. */
  function Moved(i: nat, e: nat): nat { if i < e then i else i + 1 }

  ghost function InsertAt(s: seq<nat>, e: nat, x: nat): (r: seq<nat>)
    requires e <= |s|
    ensures |r| == |s| + 1 && r[e] == x
    ensures forall i :: 0 <= i < |s| ==> r[Moved(i, e)] == s[i]
  {
    s[..e] + [x] + s[e..]
  }

  /** Where the nodes end, when one more comes in at `e`, below `at`. */
  ghost function GrownEnds(end: seq<nat>, at: nat, e: nat): (r: seq<nat>)
    requires e <= |end|
    ensures |r| == |end| + 1 && r[e] == e + 1
    ensures forall i :: 0 <= i < |end| ==>
      r[Moved(i, e)] == if (i <= at && end[i] >= e) || i >= e then end[i] + 1 else end[i]
  {
    var moved := seq(|end|, i requires 0 <= i < |end| =>
      if (i <= at && end[i] >= e) || i >= e then end[i] + 1 else end[i]);
    InsertAt(moved, e, e + 1)
  }

  /** Places move, and `x` is the one of the new node; the one of `at` becomes the new node's, if `change` says so. */
  ghost function GrownPlaces(s: seq<nat>, e: nat, x: nat, at: nat, change: bool): (r: seq<nat>)
    requires e <= |s|
    ensures |r| == |s| + 1 && r[e] == x
    ensures forall i :: 0 <= i < |s| ==> r[Moved(i, e)] == if change && i == at then e else Moved(s[i], e)
  {
    InsertAt(seq(|s|, i requires 0 <= i < |s| => if change && i == at then e else Moved(s[i], e)), e, x)
  }

  /** The tree with one more last child of the node at `at`. */
  ghost function Grown(t: Layout, at: nat, child: TreeNode): Layout
    requires t.Ok() && at < |t.order|
  {
    var n := |t.order|;
    var e := if t.end[at] <= n then t.end[at] else n;
    Layout(t.order[..e] + [child] + t.order[e..], GrownEnds(t.end, at, e), GrownPlaces(t.up, e, at, at, false),
           GrownPlaces(t.last, e, 0, at, true), InsertAt(t.depth, e, t.depth[at] + 1))
  }

  /** What the grown tree is, node by node. */
  lemma GrownIs(t: Layout, at: nat, child: TreeNode, i: nat)
    requires t.Ok() && at < |t.order| && i < |t.order|
    ensures t.At(at) && t.At(i)
    ensures var g, e, m := Grown(t, at, child), t.end[at], Moved(i, t.end[at]);
      && |g.order| == |g.end| == |g.up| == |g.last| == |g.depth| == |t.order| + 1 && m < |g.order|
      && g.order[m] == t.order[i] && g.up[m] == Moved(t.up[i], e) && g.depth[m] == t.depth[i]
      && g.last[m] == (if i == at then e else Moved(t.last[i], e))
      && g.end[m] == (if (i <= at && t.end[i] >= e) || i >= e then t.end[i] + 1 else t.end[i])
      && g.order[e] == child && g.end[e] == e + 1 && g.up[e] == at && g.depth[e] == t.depth[at] + 1
  {
    GrownParts(t, at, child);
    assert t.At(i);
    var e := t.end[at];
    OrderAt(t.order, e, child, i);
    hide *;
    MovedInside(i, e, |t.order|);
  }

  lemma GrownParts(t: Layout, at: nat, child: TreeNode)
    requires t.Ok() && at < |t.order|
    ensures t.At(at) && |t.order| == |t.end| == |t.up| == |t.last| == |t.depth| && t.end[at] <= |t.order|
    ensures var g, e := Grown(t, at, child), t.end[at];
      && g.order == t.order[..e] + [child] + t.order[e..] && g.end == GrownEnds(t.end, at, e)
      && g.up == GrownPlaces(t.up, e, at, at, false) && g.last == GrownPlaces(t.last, e, 0, at, true)
      && g.depth == InsertAt(t.depth, e, t.depth[at] + 1)
  {
    assert t.At(at);
  }

  lemma OrderAt(s: seq<TreeNode>, e: nat, child: TreeNode, i: nat)
    requires e <= |s| && i < |s|
    ensures var r := s[..e] + [child] + s[e..];
      |r| == |s| + 1 && Moved(i, e) < |r| && r[Moved(i, e)] == s[i] && r[e] == child
  {
  }

  lemma MovedInside(i: nat, e: nat, n: nat)
    requires i < n
    ensures Moved(i, e) < n + 1
  {
  }

  ghost predicate Sound(t: Layout) { t.Ok() }

  /** Where a node lies with respect to the place `e` right after the nodes below `at`. */
  lemma Sides(t: Layout, at: nat, i: nat)
    requires Sound(t) && at < |t.order| && i < |t.order|
    ensures t.At(at) && t.At(i) && at < t.end[at] <= |t.order|
    ensures i < at ==> t.end[i] <= at || t.end[i] >= t.end[at]
    ensures at < i < t.end[at] ==> t.end[i] <= t.end[at] && t.up[i] >= at
    ensures i > 0 && i >= t.end[at] ==> t.up[i] < at || t.up[i] >= t.end[at]
    ensures 0 < i <= at ==> t.up[i] < at
    ensures i > 0 && i < at && t.end[i] >= t.end[at] ==> t.end[t.up[i]] >= t.end[at]
  {
    assert t.At(at) && t.At(i);
    assert i < at < t.end[i] ==> t.Nested(i, at);
    assert at < i < t.end[at] ==> t.Nested(at, i);
    if i > 0 && at < t.up[i] < t.end[at] {
      assert t.Nested(at, t.up[i]);
    }
  }

  lemma GrownBounds(t: Layout, at: nat, child: TreeNode, i: nat)
    requires Sound(t) && at < |t.order| && i < |t.order|
    ensures t.At(at) && t.At(i)
    ensures var g, m := Grown(t, at, child), Moved(i, t.end[at]);
      && |g.order| == |g.end| == |g.up| == |g.last| == |g.depth| == |t.order| + 1 && m < g.end[m] <= |g.order|
      && (i > 0 ==> g.up[m] < m && g.end[m] <= g.end[g.up[m]] <= |g.order| && g.depth[m] == g.depth[g.up[m]] + 1)
  {
    hide Grown, Layout.Ok;
    GrownIs(t, at, child, i);
    Sides(t, at, i);
    if i > 0 {
      GrownIs(t, at, child, t.up[i]);
      Sides(t, at, t.up[i]);
    }
  }

  lemma GrownSibling(t: Layout, at: nat, child: TreeNode, i: nat)
    requires Sound(t) && at < |t.order| && 0 < i < |t.order|
    ensures t.At(at) && t.At(i)
    ensures var g, m := Grown(t, at, child), Moved(i, t.end[at]);
      && m < |g.up| && g.up[m] < |g.end| == |g.up|
      && (g.end[m] < g.end[g.up[m]] ==> g.end[m] < |g.up| && g.up[g.end[m]] == g.up[m])
  {
    hide Grown, Layout.Ok;
    GrownBounds(t, at, child, i);
    GrownIs(t, at, child, i);
    Sides(t, at, i);
    GrownIs(t, at, child, t.up[i]);
    Sides(t, at, t.up[i]);
    if t.end[i] < t.end[t.up[i]] {
      GrownIs(t, at, child, t.end[i]);
    }
  }

  lemma GrownFirst(t: Layout, at: nat, child: TreeNode, i: nat)
    requires Sound(t) && at < |t.order| && i < |t.order|
    ensures t.At(at) && t.At(i)
    ensures var g, m := Grown(t, at, child), Moved(i, t.end[at]);
      && m < |g.end| == |g.up| && (m + 1 < g.end[m] ==> m + 1 < |g.up| && g.up[m + 1] == m)
      && (m + 1 < g.end[m] && i != at ==> i + 1 < t.end[i])
  {
    hide Grown, Layout.Ok;
    GrownBounds(t, at, child, i);
    GrownIs(t, at, child, i);
    Sides(t, at, i);
    if i + 1 < t.end[i] {
      GrownIs(t, at, child, i + 1);
    }
  }

  lemma GrownLast(t: Layout, at: nat, child: TreeNode, i: nat)
    requires Sound(t) && at < |t.order| && i < |t.order| && i != at && t.At(i) && i + 1 < t.end[i]
    ensures t.At(at)
    ensures var g, m := Grown(t, at, child), Moved(i, t.end[at]);
      && m < |g.end| == |g.up| == |g.last| && m < g.last[m] < |g.up| && g.last[m] < g.end[m]
      && g.up[g.last[m]] == m && g.end[g.last[m]] == g.end[m]
  {
    hide Grown, Layout.Ok;
    GrownIs(t, at, child, i);
    Sides(t, at, i);
    GrownIs(t, at, child, t.last[i]);
    Sides(t, at, t.last[i]);
  }

  lemma GrownLastAt(t: Layout, at: nat, child: TreeNode)
    requires Sound(t) && at < |t.order|
    ensures t.At(at)
    ensures var g, e := Grown(t, at, child), t.end[at];
      && at < e < |g.end| == |g.up| == |g.last| && g.last[at] == e && g.end[at] == e + 1
      && g.up[e] == at && g.end[e] == e + 1 && g.depth[e] == t.depth[at] + 1 && g.depth[at] == t.depth[at]
      && |g.order| == |g.depth| == |g.end|
  {
    hide Grown, Layout.Ok;
    GrownIs(t, at, child, at);
  }

  lemma FromParts(g: Layout, m: nat)
    requires |g.order| == |g.end| == |g.up| == |g.last| == |g.depth| && m < |g.end| && m < g.end[m] <= |g.order|
    requires m > 0 ==> g.up[m] < m && g.end[m] <= g.end[g.up[m]] <= |g.order| && g.depth[m] == g.depth[g.up[m]] + 1
    requires m > 0 && g.end[m] < g.end[g.up[m]] ==> g.end[m] < |g.up| && g.up[g.end[m]] == g.up[m]
    requires m + 1 < g.end[m] ==>
      g.up[m + 1] == m && m < g.last[m] < g.end[m] && g.up[g.last[m]] == m && g.end[g.last[m]] == g.end[m]
    ensures g.At(m)
  {
  }

  lemma GrownAt(t: Layout, at: nat, child: TreeNode, m: nat)
    requires Sound(t) && at < |t.order| && m <= |t.order|
    ensures Grown(t, at, child).At(m)
  {
    hide Grown, Layout.Ok;
    GrownLastAt(t, at, child);
    var e := t.end[at];
    if m == e {
      FromParts(Grown(t, at, child), e);
    } else {
      var i := if m < e then m else m - 1;
      GrownBounds(t, at, child, i);
      GrownFirst(t, at, child, i);
      if i != at && i + 1 < t.end[i] {
        GrownLast(t, at, child, i);
      }
      if i > 0 {
        GrownSibling(t, at, child, i);
      }
      assert Moved(i, e) == m && Moved(at, e) == at;
      FromParts(Grown(t, at, child), m);
    }
  }

  lemma GrownNested(t: Layout, at: nat, child: TreeNode, i: nat, j: nat)
    requires Sound(t) && at < |t.order| && i < j < |t.order|
    ensures t.At(at) && t.At(i) && t.At(j)
    ensures var g, m, n := Grown(t, at, child), Moved(i, t.end[at]), Moved(j, t.end[at]);
      m < |g.end| && m < n && (n < g.end[m] ==> g.Nested(m, n))
  {
    hide Grown, Layout.Ok;
    GrownIs(t, at, child, i);
    GrownIs(t, at, child, j);
    Sides(t, at, i);
    Sides(t, at, j);
    NestedIn(t, i, j);
  }

  lemma NestedIn(t: Layout, i: nat, j: nat)
    requires t.Ok() && i < j < |t.order|
    ensures t.At(i) && t.At(j) && (j < t.end[i] ==> i <= t.up[j] && t.end[j] <= t.end[i])
  {
    assert t.At(i) && t.At(j);
    assert j < t.end[i] ==> t.Nested(i, j);
  }

  lemma NestedChild(t: Layout, at: nat, child: TreeNode, i: nat)
    requires Sound(t) && at < |t.order| && i < |t.order|
    ensures t.At(at) && t.At(i)
    ensures var g, m, e := Grown(t, at, child), Moved(i, t.end[at]), t.end[at];
      && m < |g.end| && e < |g.end| && m != e && (m < e < g.end[m] ==> g.Nested(m, e)) && (e < m ==> !(m < g.end[e]))
  {
    hide Grown, Layout.Ok;
    GrownIs(t, at, child, i);
    GrownIs(t, at, child, at);
    Sides(t, at, i);
  }

  lemma GrownPair(t: Layout, at: nat, child: TreeNode, i: nat, j: nat)
    requires Sound(t) && at < |t.order| && i < j <= |t.order|
    ensures var g := Grown(t, at, child); |g.end| == |t.order| + 1 && (j < g.end[i] ==> g.Nested(i, j))
  {
    hide Grown, Layout.Ok;
    GrownIs(t, at, child, at);
    var e := t.end[at];
    if i == e {
      NestedChild(t, at, child, j - 1);
    } else if j == e {
      NestedChild(t, at, child, i);
    } else {
      GrownNested(t, at, child, if i < e then i else i - 1, if j < e then j else j - 1);
    }
  }

  lemma GrownDistinct(t: Layout, at: nat, child: TreeNode, i: nat, j: nat)
    requires Sound(t) && at < |t.order| && child !in t.order && i < j <= |t.order|
    ensures var g := Grown(t, at, child); |g.order| == |t.order| + 1 && g.order[i] != g.order[j]
  {
    hide *;
    OrderOfGrown(t, at, child);
    AllDistinct(t);
    StillDistinct(t.order, t.end[at], child, i, j);
  }

  lemma OrderOfGrown(t: Layout, at: nat, child: TreeNode)
    requires Sound(t) && at < |t.order|
    ensures t.Ok() && at < |t.end| && t.end[at] <= |t.order|
    ensures Grown(t, at, child).order == t.order[..t.end[at]] + [child] + t.order[t.end[at]..]
  {
    GrownParts(t, at, child);
  }

  lemma AllDistinct(t: Layout)
    requires Sound(t)
    ensures forall a, b :: 0 <= a < b < |t.order| ==> t.order[a] != t.order[b]
  {
  }

  lemma StillDistinct(s: seq<TreeNode>, e: nat, child: TreeNode, i: nat, j: nat)
    requires e <= |s| && child !in s && i < j <= |s|
    requires forall a, b :: 0 <= a < b < |s| ==> s[a] != s[b]
    ensures var r := s[..e] + [child] + s[e..]; |r| == |s| + 1 && r[i] != r[j]
  {
  }

  lemma GrownRoot(t: Layout, at: nat, child: TreeNode)
    requires t.Ok() && at < |t.order|
    ensures var g := Grown(t, at, child);
      && |g.order| == |g.end| == |g.up| == |g.last| == |g.depth| == |t.order| + 1
      && g.end[0] == |g.order| && g.depth[0] == 0 && g.up[0] == 0
  {
    GrownIs(t, at, child, 0);
    Sides(t, at, 0);
  }

  lemma OkFromParts(g: Layout)
    requires |g.order| > 0 && |g.order| == |g.end| == |g.up| == |g.last| == |g.depth|
    requires g.end[0] == |g.order| && g.depth[0] == 0 && g.up[0] == 0
    requires forall m {:trigger g.At(m)} :: 0 <= m < |g.order| ==> g.At(m)
    requires forall i, j :: 0 <= i < j < |g.order| ==> g.order[i] != g.order[j]
    requires forall i, j {:trigger g.Nested(i, j)} :: 0 <= i < j < |g.order| && j < g.end[i] ==> g.Nested(i, j)
    ensures g.Ok()
  {
  }

  /** The grown tree is a tree. */
  lemma GrownOk(t: Layout, at: nat, child: TreeNode)
    requires Sound(t) && at < |t.order| && child !in t.order
    ensures Grown(t, at, child).Ok()
  {
    hide Grown, Layout.Ok, Layout.At, Layout.Nested;
    var g, n := Grown(t, at, child), |t.order|;
    GrownRoot(t, at, child);
    forall m: nat | m < n + 1
      ensures g.At(m)
    {
      GrownAt(t, at, child, m);
    }
    forall i: nat, j: nat | i < j < n + 1
      ensures g.order[i] != g.order[j]
    {
      GrownDistinct(t, at, child, i, j);
    }
    forall i: nat, j: nat | i < j < n + 1 && j < g.end[i]
      ensures g.Nested(i, j)
    {
      GrownPair(t, at, child, i, j);
    }
    OkFromParts(g);
  }

  /** The links of the nodes that were there, once `child` is the last child of the node at `at`. */
  ghost predicate LinkedBut(t: Layout, at: nat, child: TreeNode, i: nat)
    requires t.At(i) && t.At(at)
    reads t.order
  {
    var x, e := t.order[i], t.end[at];
    && (if i == 0 then x.parent == null && x.next == null
        else
          && x.parent == t.order[t.up[i]]
          && x.next == if t.up[i] == at && t.end[i] == e then child
                       else if t.end[i] < t.end[t.up[i]] then t.order[t.end[i]] else null)
    && x.firstChild == (if i + 1 < t.end[i] then t.order[i + 1] else if i == at then child else null)
    && x.lastChild == (if i == at then child else if i + 1 < t.end[i] then t.order[t.last[i]] else null)
  }

  lemma GrownUpLinks(t: Layout, at: nat, child: TreeNode, i: nat)
    requires Sound(t) && at < |t.order| && 0 < i < |t.order| && t.At(i) && t.At(at) && LinkedBut(t, at, child, i)
    ensures var g, m, x := Grown(t, at, child), Moved(i, t.end[at]), t.order[i];
      g.At(m) && x.parent == g.order[g.up[m]] && x.next == if g.end[m] < g.end[g.up[m]] then g.order[g.end[m]] else null
  {
    hide Grown, Layout.Ok;
    GrownAt(t, at, child, Moved(i, t.end[at]));
    GrownIs(t, at, child, i);
    Sides(t, at, i);
    GrownIs(t, at, child, t.up[i]);
    Sides(t, at, t.up[i]);
    if t.end[i] < t.end[t.up[i]] {
      GrownIs(t, at, child, t.end[i]);
    }
  }

  lemma GrownDownLinks(t: Layout, at: nat, child: TreeNode, i: nat)
    requires Sound(t) && at < |t.order| && i < |t.order| && t.At(i) && t.At(at) && LinkedBut(t, at, child, i)
    ensures var g, m, x := Grown(t, at, child), Moved(i, t.end[at]), t.order[i];
      && g.At(m) && x.firstChild == (if m + 1 < g.end[m] then g.order[m + 1] else null)
      && x.lastChild == (if m + 1 < g.end[m] then g.order[g.last[m]] else null)
  {
    hide Grown, Layout.Ok;
    GrownAt(t, at, child, Moved(i, t.end[at]));
    GrownIs(t, at, child, i);
    Sides(t, at, i);
    if i + 1 < t.end[i] {
      GrownIs(t, at, child, i + 1);
      GrownIs(t, at, child, t.last[i]);
    }
  }

  lemma GrownLinkedAt(t: Layout, at: nat, child: TreeNode, i: nat)
    requires Sound(t) && at < |t.order| && i < |t.order| && t.At(i) && t.At(at) && LinkedBut(t, at, child, i)
    ensures var g, m := Grown(t, at, child), Moved(i, t.end[at]); g.At(m) && g.LinkedAt(m)
  {
    hide Grown, Layout.Ok;
    GrownIs(t, at, child, i);
    GrownDownLinks(t, at, child, i);
    if i > 0 {
      GrownUpLinks(t, at, child, i);
    }
  }

  lemma ChildLinkedAt(t: Layout, at: nat, child: TreeNode)
    requires Sound(t) && at < |t.order| && t.At(at)
    requires child.parent == t.order[at] && child.firstChild == child.lastChild == child.next == null
    ensures var g, e := Grown(t, at, child), t.end[at]; g.At(e) && g.LinkedAt(e)
  {
    hide Grown, Layout.Ok;
    GrownAt(t, at, child, t.end[at]);
    GrownIs(t, at, child, at);
  }

  /** `DEVICE_INIT` of a device alone is a tree. */
  method RootDevice() returns (root: TreeNode, ghost t: Layout)
    ensures fresh(root) && t.Linked() && t.order == [root]
  {
    root := new TreeNode([]);
    t := Layout([root], [1], [0], [0], [0]);
    assert t.At(0);
  }

  /** `device_add`: the child comes last among the parent's children; the walks see it there. */
  method AddDevice(parent: TreeNode, child: TreeNode, ghost t: Layout, ghost at: nat)
    requires t.Linked() && at < |t.order| && t.order[at] == parent && child !in t.order
    requires child.parent == child.firstChild == child.lastChild == child.next == null
    modifies t.order, child
    ensures t.Ok() && Grown(t, at, child).Linked()
  {
    assert t.At(at) && t.LinkedAt(at);
    child.parent := parent;
    if parent.lastChild == null {
      parent.firstChild := child;
    } else {
      parent.lastChild.next := child;
    }
    parent.lastChild := child;
    forall i: nat | i < |t.order|
      ensures t.At(i) && LinkedBut(t, at, child, i)
    {
      assert t.At(i) && old(t.LinkedAt(i));
      OneLast(t, at, i);
    }
    AllLinked(t, at, child);
  }

  /** A node has one last child. */
  lemma OneLast(t: Layout, at: nat, i: nat)
    requires t.Ok() && at < |t.order| && i < |t.order|
    ensures t.At(at) && t.At(i)
    ensures at + 1 < t.end[at] && i > 0 && t.up[i] == at && t.end[i] == t.end[at] ==> i == t.last[at]
    ensures i > 0 && t.up[i] == at ==> at + 1 < t.end[at]
  {
    assert t.At(at) && t.At(i);
    if at + 1 < t.end[at] && i > 0 && t.up[i] == at && t.end[i] == t.end[at] && i != t.last[at] {
      NestedIn(t, if i < t.last[at] then i else t.last[at], if i < t.last[at] then t.last[at] else i);
    }
  }

  lemma AllLinked(t: Layout, at: nat, child: TreeNode)
    requires Sound(t) && at < |t.order| && child !in t.order && t.At(at)
    requires child.parent == t.order[at] && child.firstChild == child.lastChild == child.next == null
    requires forall i {:trigger t.At(i)} :: 0 <= i < |t.order| ==> t.At(i) && LinkedBut(t, at, child, i)
    ensures Grown(t, at, child).Linked()
  {
    hide Grown, Layout.Ok, LinkedBut;
    GrownOk(t, at, child);
    GrownRoot(t, at, child);
    var g, e := Grown(t, at, child), t.end[at];
    forall m: nat | m < |g.order| && g.At(m)
      ensures g.LinkedAt(m)
    {
      if m == e {
        ChildLinkedAt(t, at, child);
      } else {
        var i := if m < e then m else m - 1;
        assert t.At(i);
        GrownLinkedAt(t, at, child, i);
      }
    }
  }
}
