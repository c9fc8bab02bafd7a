/**
  The nodes of the treaps of `mm/virtual_alloc.c` and the shape they form.

  A `Shape` is a snapshot of a treap's nodes. `order` is their in-order sequence and `span` says,
  for each node, which stretch of `order` its subtree occupies. With these two, being a tree is a
  condition on each node and its children (`NodeOk`), so a rotation, which leaves `order` alone,
  only has to be looked at around the two nodes that trade places.
 */
module TreapShape {
  import opened Integers

  datatype Side = LeftChild | RightChild {
    function Other(): Side { if LeftChild? then RightChild else LeftChild }
  }

  /** `struct treap_head`. */
  datatype TreapHead<T> = TreapHead(value: u32, whichChild: Side, priority: u31,
                                    parent: TreapNode?<T>, left: TreapNode?<T>, right: TreapNode?<T>) {
    /** `children[side]`. */
    function Child(side: Side): TreapNode?<T> {
      if side.LeftChild? then left else right
    }

    function WithChild(side: Side, child: TreapNode?<T>): TreapHead<T> {
      if side.LeftChild? then this.(left := child) else this.(right := child)
    }
  }

  /** What `treap_init` makes of a node: it hangs in no treap. */
  function Detached<T>(value: u32): TreapHead<T> {
    TreapHead(value, LeftChild, 0, null, null, null)
  }

  /** The place in a VMA that holds one `treap_head`; `owner` is that VMA. */
  class TreapNode<T> {
    var head: TreapHead<T>
    var owner: T

    constructor (owner: T, value: u32)
      ensures head == Detached(value) && this.owner == owner
    {
      this.owner := owner;
      head := Detached(value);
    }
  }

  /** A node sits at `order[pos]`, its subtree at `order[lo..hi]`. */
  datatype Span = Span(lo: nat, pos: nat, hi: nat) {
    ghost function From(side: Side): nat { if side.LeftChild? then lo else pos + 1 }
    ghost function To(side: Side): nat { if side.LeftChild? then pos else hi }
  }

  datatype Shape<T> = Shape(root: TreapNode?<T>, order: seq<TreapNode<T>>,
                            span: map<TreapNode<T>, Span>, at: map<TreapNode<T>, TreapHead<T>>) {

    // ----- being a tree

    /** The child of `n` on `side` is exactly the subtree that its part of the span calls for. */
    ghost predicate ChildOk(n: TreapNode<T>, side: Side)
      requires n in span && span.Keys == at.Keys
    {
      var child := at[n].Child(side);
      && (child == null <==> span[n].From(side) == span[n].To(side))
      && (child != null ==>
            && child in span && at[child].parent == n && at[child].whichChild == side
            && span[child].lo == span[n].From(side) && span[child].hi == span[n].To(side))
    }

    ghost predicate NodeOk(n: TreapNode<T>)
      requires n in span && span.Keys == at.Keys
    {
      && span[n].lo <= span[n].pos < span[n].hi <= |order|
      && order[span[n].pos] == n
      && ChildOk(n, LeftChild) && ChildOk(n, RightChild)
    }

    ghost predicate RootOk() {
      && (root == null <==> order == [])
      && (root != null ==>
            root in span && root in at && at[root].parent == null && span[root].lo == 0 && span[root].hi == |order|)
    }

    ghost predicate OrderOk() {
      forall i :: 0 <= i < |order| ==> order[i] in span && span[order[i]].pos == i
    }

    /** The nodes form one binary tree, rooted at `root`, whose in-order sequence is `order`. */
    ghost predicate Ok() {
      && span.Keys == at.Keys
      && RootOk() && OrderOk()
      && (forall n {:trigger NodeOk(n)} :: n in span ==> NodeOk(n))
    }

    /** The link from `n` up agrees with the link down. */
    ghost predicate ParentOk(n: TreapNode<T>)
      requires n in at
    {
      var p := at[n].parent;
      if p == null then n == root else p in at && at[p].Child(at[n].whichChild) == n
    }

    lemma Descend(cur: TreapNode<T>, n: TreapNode<T>)
      requires Ok() && cur in span && n in span && n != cur
      requires span[cur].lo <= span[n].pos < span[cur].hi
      ensures at[n].parent != null && ParentOk(n)
      decreases span[cur].hi - span[cur].lo
    {
      assert NodeOk(cur) && NodeOk(n);
      var side := if span[n].pos < span[cur].pos then LeftChild else RightChild;
      assert ChildOk(cur, side);
      var child := at[cur].Child(side);
      if child != n {
        Descend(child, n);
      }
    }

    /** Every node but the root hangs under its parent on the side it says it does. */
    lemma ParentIsOk(n: TreapNode<T>)
      requires Ok() && n in span
      ensures ParentOk(n)
    {
      assert NodeOk(n);
      if n != root {
        Descend(root, n);
      }
    }

    // ----- rotation

    ghost predicate Rotatable(n: TreapNode<T>, side: Side) {
      && span.Keys == at.Keys && n in at
      && at[n].Child(side) != null && at[n].Child(side) in at
    }

    ghost function RotatedFields(n: TreapNode<T>, side: Side, m: TreapNode<T>): TreapHead<T>
      requires Rotatable(n, side) && m in at
    {
      var up := at[n].Child(side);
      var p := at[n].parent;
      var c := at[up].Child(side.Other());
      if m == n then at[n].WithChild(side, c).(parent := up, whichChild := side.Other())
      else if m == up then at[up].WithChild(side.Other(), n).(parent := p, whichChild := at[n].whichChild)
      else if m == c then at[c].(parent := n, whichChild := side)
      else if m == p then at[p].WithChild(at[n].whichChild, up)
      else at[m]
    }

    ghost function RotatedSpan(n: TreapNode<T>, side: Side, m: TreapNode<T>): Span
      requires Rotatable(n, side) && m in span
    {
      var up := at[n].Child(side);
      if m == n then
        if side.LeftChild? then span[n].(lo := span[up].pos + 1) else span[n].(hi := span[up].pos)
      else if m == up then Span(span[n].lo, span[up].pos, span[n].hi)
      else span[m]
    }

    /** The shape after `treap_rotate`: `n` and its child on `side` trade places. */
    ghost function Rotated(n: TreapNode<T>, side: Side): Shape<T>
      requires Rotatable(n, side)
    {
      Shape(if at[n].parent == null then at[n].Child(side) else root, order,
            map m | m in span :: RotatedSpan(n, side, m),
            map m | m in at :: RotatedFields(n, side, m))
    }

    /** The nodes that a rotation touches are members and different from each other. */
    ghost predicate AroundDistinct(n: TreapNode<T>, side: Side)
      requires Rotatable(n, side)
    {
      var up, p := at[n].Child(side), at[n].parent;
      var c := at[up].Child(side.Other());
      && up != n && p != n && p != up && (p != null ==> p in at)
      && (c != null ==> c in at && c != n && c != up && c != p)
    }

    /** The four nodes that a rotation touches are different. */
    lemma Around(n: TreapNode<T>, side: Side)
      requires Ok() && Rotatable(n, side)
      ensures NodeOk(n) && ParentOk(n) && NodeOk(at[n].Child(side))
      ensures at[n].Child(side) != n && at[n].parent != n && at[n].parent != at[n].Child(side)
      ensures at[n].parent != null ==> at[n].parent in span && NodeOk(at[n].parent)
      ensures var c := at[at[n].Child(side)].Child(side.Other());
        c != null ==> c in span && NodeOk(c) && c != n && c != at[n].Child(side) && c != at[n].parent
    {
      ParentIsOk(n);
      var up := at[n].Child(side);
      var p := at[n].parent;
      assert NodeOk(n) && NodeOk(up);
      assert p != null ==> NodeOk(p);
      var c := at[up].Child(side.Other());
      assert c != null ==> NodeOk(c);
    }

    lemma RotatedLower(n: TreapNode<T>, side: Side, s: Side)
      requires Ok() && Rotatable(n, side)
      ensures Rotated(n, side).ChildOk(n, s)
    {
      Around(n, side);
    }

    lemma RotatedUpper(n: TreapNode<T>, side: Side, s: Side)
      requires Ok() && Rotatable(n, side)
      ensures Rotated(n, side).ChildOk(at[n].Child(side), s)
    {
      Around(n, side);
    }

    lemma RotatedParent(n: TreapNode<T>, side: Side, s: Side)
      requires Ok() && Rotatable(n, side) && at[n].parent != null
      ensures at[n].parent in span && Rotated(n, side).ChildOk(at[n].parent, s)
    {
      Around(n, side);
    }

    lemma RotatedOther(n: TreapNode<T>, side: Side, m: TreapNode<T>, s: Side)
      requires Ok() && Rotatable(n, side) && m in span
      requires m != n && m != at[n].Child(side) && m != at[n].parent
      ensures Rotated(n, side).ChildOk(m, s)
    {
      Around(n, side);
      assert NodeOk(m) && ChildOk(n, side);
      OtherChild(n, side, m, s);
    }

    /** A child of a node away from the rotation is none of the nodes that it changes. */
    lemma OtherChild(n: TreapNode<T>, side: Side, m: TreapNode<T>, s: Side)
      requires Rotatable(n, side) && AroundDistinct(n, side) && m in span && ChildOk(m, s)
      requires m != n && m != at[n].Child(side) && m != at[n].parent
      requires at[at[n].Child(side)].parent == n
      requires var c := at[at[n].Child(side)].Child(side.Other()); c != null ==> at[c].parent == at[n].Child(side)
      ensures Rotated(n, side).ChildOk(m, s)
    {
      var child := at[m].Child(s);
      assert RotatedFields(n, side, m).Child(s) == child;
      assert RotatedSpan(n, side, m) == span[m];
      if child != null {
        assert child != n && child != at[n].Child(side) && child != at[at[n].Child(side)].Child(side.Other());
        assert RotatedFields(n, side, child).parent == m && RotatedFields(n, side, child).whichChild == s;
        assert RotatedSpan(n, side, child) == span[child];
      }
    }

    lemma RotatedNode(n: TreapNode<T>, side: Side, m: TreapNode<T>)
      requires Ok() && Rotatable(n, side) && m in span
      ensures Rotated(n, side).NodeOk(m)
    {
      Around(n, side);
      assert NodeOk(m);
      forall s: Side
        ensures Rotated(n, side).ChildOk(m, s)
      {
        if m == n {
          RotatedLower(n, side, s);
        } else if m == at[n].Child(side) {
          RotatedUpper(n, side, s);
        } else if m == at[n].parent {
          RotatedParent(n, side, s);
        } else {
          RotatedOther(n, side, m, s);
        }
      }
    }

    lemma RotatedRoot(n: TreapNode<T>, side: Side)
      requires Ok() && Rotatable(n, side)
      ensures Rotated(n, side).RootOk()
    {
      Around(n, side);
      assert NodeOk(root);
      if at[n].parent != null {
        assert root != n && root != at[n].Child(side);
        assert RotatedSpan(n, side, root) == span[root];
        assert RotatedFields(n, side, root).parent == null;
      }
    }

    /** A rotation keeps a tree a tree with the same in-order sequence. */
    lemma RotatedOk(n: TreapNode<T>, side: Side)
      requires Ok() && Rotatable(n, side)
      ensures Rotated(n, side).Ok() && Rotated(n, side).order == order
    {
      var r := Rotated(n, side);
      RotatedRoot(n, side);
      forall m | m in span
        ensures r.NodeOk(m)
      {
        RotatedNode(n, side, m);
      }
      forall i | 0 <= i < |order|
        ensures order[i] in r.span && r.span[order[i]].pos == i
      {
        assert RotatedSpan(n, side, order[i]).pos == span[order[i]].pos;
      }
    }

    /** `that` has the same nodes in the same order, with the same values and priorities. */
    ghost predicate SameNodes(that: Shape<T>) {
      && that.order == order && that.at.Keys == at.Keys
      && (forall m :: m in at ==> that.at[m].value == at[m].value && that.at[m].priority == at[m].priority)
    }

    lemma RotatedSameNodes(n: TreapNode<T>, side: Side)
      requires Rotatable(n, side)
      ensures SameNodes(Rotated(n, side))
    {
    }

    // ----- adding and removing a leaf

    ghost function GraftedSpan(p: TreapNode<T>, side: Side, v: TreapNode<T>, m: TreapNode<T>): Span
      requires p in span && (m == v || m in span)
    {
      var q, k := span[p].pos, span[p].To(side);
      if m == v then Span(k, k, k + 1)
      else Span(if span[m].lo > q then span[m].lo + 1 else span[m].lo,
                if span[m].pos >= k then span[m].pos + 1 else span[m].pos,
                if span[m].hi > q then span[m].hi + 1 else span[m].hi)
    }

    ghost function GraftedFields(p: TreapNode<T>, side: Side, v: TreapNode<T>, value: u32, priority: u31,
                                 m: TreapNode<T>): TreapHead<T>
      requires p in at && (m == v || m in at)
    {
      if m == v then TreapHead(value, side, priority, p, null, null)
      else if m == p then at[p].WithChild(side, v)
      else at[m]
    }

    ghost predicate Graftable(p: TreapNode<T>, side: Side, v: TreapNode<T>) {
      && span.Keys == at.Keys && v !in at
      && p in at && at[p].Child(side) == null && span[p].To(side) <= |order|
    }

    /** The shape once `v` hangs as a leaf under `p`. */
    ghost function Grafted(p: TreapNode<T>, side: Side, v: TreapNode<T>, value: u32, priority: u31): Shape<T>
      requires Graftable(p, side, v)
    {
      var k := span[p].To(side);
      Shape(root, order[..k] + [v] + order[k..],
            map m | m in span.Keys + {v} :: GraftedSpan(p, side, v, m),
            map m | m in at.Keys + {v} :: GraftedFields(p, side, v, value, priority, m))
    }

    lemma GraftedChild(p: TreapNode<T>, side: Side, v: TreapNode<T>, value: u32, priority: u31,
                       m: TreapNode<T>, s: Side)
      requires Ok() && Graftable(p, side, v) && (m == v || m in span)
      ensures Grafted(p, side, v, value, priority).ChildOk(m, s)
    {
      assert NodeOk(p);
      if m != v {
        assert NodeOk(m) && ChildOk(m, s);
        var child := at[m].Child(s);
        assert child != null ==> NodeOk(child);
        assert order[span[m].pos] == m && order[span[p].pos] == p;
        GraftedChildFrom(p, side, v, value, priority, m, s);
      }
    }

    lemma GraftedChildFrom(p: TreapNode<T>, side: Side, v: TreapNode<T>, value: u32, priority: u31,
                           m: TreapNode<T>, s: Side)
      requires Graftable(p, side, v) && m in span && m != v && NodeOk(p) && NodeOk(m) && ChildOk(m, s)
      requires ChildOk(p, side)
      requires var child := at[m].Child(s); child != null ==> NodeOk(child)
      requires m != p ==> span[m].pos != span[p].pos
      ensures Grafted(p, side, v, value, priority).ChildOk(m, s)
    {
    }

    lemma GraftedNode(p: TreapNode<T>, side: Side, v: TreapNode<T>, value: u32, priority: u31, m: TreapNode<T>)
      requires Ok() && Graftable(p, side, v) && (m == v || m in span)
      ensures Grafted(p, side, v, value, priority).NodeOk(m)
    {
      GraftedPlace(p, side, v, value, priority, m);
      GraftedChild(p, side, v, value, priority, m, LeftChild);
      GraftedChild(p, side, v, value, priority, m, RightChild);
      hide Ok, Grafted, ChildOk, Graftable;
    }

    lemma GraftedPlace(p: TreapNode<T>, side: Side, v: TreapNode<T>, value: u32, priority: u31, m: TreapNode<T>)
      requires Ok() && Graftable(p, side, v) && (m == v || m in span)
      ensures var g := Grafted(p, side, v, value, priority);
        && m in g.span && g.span.Keys == g.at.Keys
        && g.span[m].lo <= g.span[m].pos < g.span[m].hi <= |g.order| && g.order[g.span[m].pos] == m
    {
      assert NodeOk(p);
      assert m != v ==> NodeOk(m);
      hide OrderOk, RootOk, ChildOk;
    }

    lemma GraftedOk(p: TreapNode<T>, side: Side, v: TreapNode<T>, value: u32, priority: u31)
      requires Ok() && Graftable(p, side, v)
      ensures Grafted(p, side, v, value, priority).Ok()
    {
      var g := Grafted(p, side, v, value, priority);
      assert NodeOk(p);
      var k := span[p].To(side);
      forall i | 0 <= i < |g.order|
        ensures g.order[i] in g.span && g.span[g.order[i]].pos == i
      {
        assert g.order[i] == if i < k then order[i] else if i == k then v else order[i - 1];
      }
      assert g.OrderOk();
      assert g.RootOk() && g.span.Keys == span.Keys + {v};
      hide OrderOk, RootOk, NodeOk, Grafted;
      forall m | m in g.span
        ensures g.NodeOk(m)
      {
        GraftedNode(p, side, v, value, priority, m);
      }
    }

    /** The shape once the leaf `v` is cut off. */
    ghost function Pruned(v: TreapNode<T>): Shape<T>
      requires span.Keys == at.Keys && v in at && span[v].pos < |order|
    {
      var k, p := span[v].pos, at[v].parent;
      Shape(if p == null then null else root, order[..k] + order[k + 1..],
            map m | m in span && m != v :: PrunedSpan(v, m),
            map m | m in at && m != v :: if m == p then at[p].WithChild(at[v].whichChild, null) else at[m])
    }

    ghost function PrunedSpan(v: TreapNode<T>, m: TreapNode<T>): Span
      requires v in span && m in span
    {
      var k := span[v].pos;
      Span(if span[m].lo > k then span[m].lo - 1 else span[m].lo,
           if span[m].pos > k then span[m].pos - 1 else span[m].pos,
           if span[m].hi > k then span[m].hi - 1 else span[m].hi)
    }

    lemma PrunedChild(v: TreapNode<T>, m: TreapNode<T>, s: Side)
      requires Ok() && v in at && at[v].left == null && at[v].right == null && m in at && m != v
      requires span[v].pos < |order|
      ensures Pruned(v).ChildOk(m, s)
    {
      ParentIsOk(v);
      assert NodeOk(v) && NodeOk(m) && ChildOk(m, s);
      var child := at[m].Child(s);
      assert child != null && child != v ==> NodeOk(child);
      PrunedChildFrom(v, m, s);
    }

    lemma PrunedChildFrom(v: TreapNode<T>, m: TreapNode<T>, s: Side)
      requires span.Keys == at.Keys && v in at && at[v].left == null && at[v].right == null && m in at && m != v
      requires NodeOk(v) && NodeOk(m) && ChildOk(m, s) && ParentOk(v)
      requires var child := at[m].Child(s); child != null && child != v ==> NodeOk(child)
      ensures Pruned(v).ChildOk(m, s)
    {
    }

    lemma PrunedRoot(v: TreapNode<T>)
      requires Ok() && v in at && at[v].left == null && at[v].right == null
      ensures span[v].pos < |order| && Pruned(v).RootOk()
    {
      ParentIsOk(v);
      assert NodeOk(v) && NodeOk(root);
      if at[v].parent != null {
        assert root != v;
        assert PrunedSpan(v, root).hi == |order| - 1;
      }
    }

    lemma PrunedOk(v: TreapNode<T>)
      requires Ok() && v in at && at[v].left == null && at[v].right == null
      ensures span[v].pos < |order| && Pruned(v).Ok()
    {
      assert NodeOk(v);
      var r := Pruned(v);
      PrunedRoot(v);
      PrunedOrder(v);
      assert r.span.Keys == r.at.Keys && r.span.Keys <= span.Keys;
      hide OrderOk, RootOk, NodeOk, Pruned;
      forall m | m in r.span
        ensures r.NodeOk(m)
      {
        PrunedNode(v, m);
      }
    }

    lemma PrunedOrder(v: TreapNode<T>)
      requires Ok() && v in at && span[v].pos < |order|
      ensures Pruned(v).OrderOk()
    {
      var k, r := span[v].pos, Pruned(v);
      assert NodeOk(v);
      forall i | 0 <= i < |r.order|
        ensures r.order[i] in r.span && r.span[r.order[i]].pos == i
      {
        assert r.order[i] == order[if i < k then i else i + 1];
      }
    }

    lemma PrunedNode(v: TreapNode<T>, m: TreapNode<T>)
      requires Ok() && v in at && at[v].left == null && at[v].right == null && span[v].pos < |order|
      requires m in Pruned(v).span
      ensures m in span && Pruned(v).span.Keys == Pruned(v).at.Keys && Pruned(v).NodeOk(m)
    {
      assert NodeOk(v) && NodeOk(m);
      PrunedChild(v, m, LeftChild);
      PrunedChild(v, m, RightChild);
      hide ChildOk, RootOk;
    }

    // ----- search order and heap order

    ghost predicate Sorted()
      requires Ok()
    {
      forall i, j :: 0 <= i < j < |order| ==> at[order[i]].value <= at[order[j]].value
    }

    /** The nodes before `lo` are smaller than `value`, those from `hi` on are not. */
    ghost predicate Separates(value: u32, lo: nat, hi: nat)
      requires Ok()
    {
      && (forall i :: 0 <= i < lo && i < |order| ==> at[order[i]].value < value)
      && (forall i :: hi <= i < |order| ==> value <= at[order[i]].value)
    }

    /** The side `treap_insert` descends to when it looks for the place of `value`. */
    ghost function Toward(value: u32, n: TreapNode<T>): Side
      requires n in at
    {
      if value <= at[n].value then LeftChild else RightChild
    }

    /** Descending keeps the place of `value` inside the current subtree. */
    lemma SeparatesChild(value: u32, n: TreapNode<T>)
      requires Ok() && Sorted() && n in at && Separates(value, span[n].lo, span[n].hi)
      ensures var side := Toward(value, n); Separates(value, span[n].From(side), span[n].To(side))
    {
      assert NodeOk(n);
      assert order[span[n].pos] == n;
    }

    /** `n` has no larger priority than its parent. */
    ghost predicate HeapAt(n: TreapNode<T>)
      requires n in at
    {
      at[n].parent != null ==> at[n].parent in at && at[n].priority <= at[at[n].parent].priority
    }

    ghost predicate HeapOrdered() {
      forall n {:trigger HeapAt(n)} :: n in at ==> HeapAt(n)
    }

    /** Heap order with `v` on its way up: only the link above `v` may be wrong. */
    ghost predicate Rising(v: TreapNode<T>) {
      && v in at
      && (forall n {:trigger HeapAt(n)} :: n in at && n != v ==> HeapAt(n))
      && (at[v].parent != null ==>
            && at[v].parent in at
            && (forall n {:trigger HeapAt(n)} :: n in at && at[n].parent == v ==>
                  at[n].priority <= at[at[v].parent].priority))
    }

    lemma GraftedRising(p: TreapNode<T>, side: Side, v: TreapNode<T>, value: u32, priority: u31)
      requires Ok() && Graftable(p, side, v) && HeapOrdered()
      ensures Grafted(p, side, v, value, priority).Rising(v)
    {
      var g := Grafted(p, side, v, value, priority);
      forall m | m in g.at && m != v
        ensures g.HeapAt(m) && g.at[m].parent != v
      {
        assert HeapAt(m);
        ParentIsOk(m);
      }
    }

    /** Rotating a riser above its smaller parent leaves at most the next link up wrong. */
    lemma RotatedRising(n: TreapNode<T>, side: Side)
      requires Ok() && Rotatable(n, side) && Rising(at[n].Child(side))
      requires at[n].priority < at[at[n].Child(side)].priority
      ensures Rotated(n, side).Rising(at[n].Child(side))
    {
      Around(n, side);
      var r := Rotated(n, side);
      var up := at[n].Child(side);
      assert NodeOk(n) && ChildOk(n, side);
      assert HeapAt(n);
      forall m | m in r.at && m != up
        ensures r.HeapAt(m)
        ensures r.at[m].parent == up && r.at[up].parent != null ==> r.at[m].priority <= r.at[r.at[up].parent].priority
      {
        assert HeapAt(m);
        RisenAt(n, side, m);
      }
    }

    /** The link above `m`, which is not the riser, after the rotation. */
    lemma RisenAt(n: TreapNode<T>, side: Side, m: TreapNode<T>)
      requires Rotatable(n, side) && AroundDistinct(n, side) && HeapAt(n)
      requires at[n].priority < at[at[n].Child(side)].priority
      requires m in at && m != at[n].Child(side) && HeapAt(m)
      requires at[m].parent == at[n].Child(side) ==> at[m].priority <= at[n].priority
      requires var c := at[at[n].Child(side)].Child(side.Other()); c != null ==> at[c].parent == at[n].Child(side)
      requires var c := at[at[n].Child(side)].Child(side.Other()); m == c ==> at[m].priority <= at[n].priority
      ensures var r, up := Rotated(n, side), at[n].Child(side);
        && r.HeapAt(m)
        && (r.at[up].parent != null ==> r.at[up].parent in at)
        && (r.at[m].parent == up && r.at[up].parent != null ==> r.at[m].priority <= r.at[r.at[up].parent].priority)
    {
      var r, up := Rotated(n, side), at[n].Child(side);
      assert RotatedFields(n, side, m).priority == at[m].priority;
      assert RotatedFields(n, side, up).parent == at[n].parent;
      var p, q := at[n].parent, r.at[m].parent;
      assert p != null ==> RotatedFields(n, side, p).priority == at[p].priority;
      assert q != null && q in at ==> RotatedFields(n, side, q).priority == at[q].priority;
    }

    // ----- heap order while a node is rotated down to be removed

    /** The node just before `v` in order: the rightmost one of its left subtree, if it has one. */
    ghost function Before(v: TreapNode<T>): TreapNode?<T>
      requires v in span
    {
      if 0 < span[v].pos <= |order| then order[span[v].pos - 1] else null
    }

    /** The links that do not touch `v` are in heap order, except maybe the one above `bad`. */
    ghost predicate Sunk(v: TreapNode<T>, bad: TreapNode?<T>) {
      forall n {:trigger HeapAt(n)} :: n in at && n != v && at[n].parent != v && n != bad ==> HeapAt(n)
    }

    /** The child of `v` on `side` may take the place of `v`. */
    ghost predicate MayRise(v: TreapNode<T>, side: Side, bad: TreapNode?<T>)
      requires v in at
    {
      var up, p := at[v].Child(side), at[v].parent;
      up != null && p != null && up != bad ==> up in at && p in at && at[up].priority <= at[p].priority
    }

    /** `r0`, the right child `v` had at first, is still below `v`: left children rise. */
    ghost predicate SheddingLeft(v: TreapNode<T>, r0: TreapNode?<T>, bad: TreapNode?<T>)
      requires v in at && v in span
    {
      && at[v].right == r0 && MayRise(v, LeftChild, bad)
      && (at[v].left == null ==> MayRise(v, RightChild, bad) && (bad != null ==> at[v].parent == Before(v)))
      && (at[v].left != null && r0 != null && bad == null ==>
            r0 in at && Before(v) != null && Before(v) in at && at[r0].priority <= at[Before(v)].priority)
    }

    /** `r0` has taken the place of `v`: right children rise below it. */
    ghost predicate SheddingRight(v: TreapNode<T>, r0: TreapNode?<T>, bad: TreapNode?<T>)
      requires v in at && v in span
    {
      && at[v].left == null && MayRise(v, RightChild, null)
      && r0 != null && r0 != v && r0 in at && r0 in span
      && span[r0].lo <= span[v].lo && span[v].hi <= span[r0].hi
      && (bad != null ==> at[r0].parent == Before(v))
    }

    ghost predicate Sinking(v: TreapNode<T>, r0: TreapNode?<T>, bad: TreapNode?<T>) {
      && v in at && v in span && Sunk(v, bad) && (bad == null || bad == r0)
      && (SheddingLeft(v, r0, bad) || SheddingRight(v, r0, bad))
    }

    /** Exactly when removing `v` from a heap-ordered treap leaves a heap-ordered treap. */
    ghost predicate RemovalKeepsHeap(v: TreapNode<T>)
      requires v in at && v in span
    {
      at[v].left == null || at[v].right == null ||
      (Before(v) != null && Before(v) in at && at[v].right in at && at[at[v].right].priority <= at[Before(v)].priority)
    }

    /** The first step of removal takes the priority of `v` away. */
    ghost function Demoted(v: TreapNode<T>): Shape<T>
      requires v in at
    {
      this.(at := at[v := at[v].(priority := 0)])
    }

    lemma DemotedOk(v: TreapNode<T>)
      requires Ok() && v in at
      ensures Demoted(v).Ok()
    {
      forall m | m in span
        ensures Demoted(v).NodeOk(m)
      {
        assert NodeOk(m);
      }
    }

    lemma DemotedSinking(v: TreapNode<T>)
      requires Ok() && v in at && HeapOrdered()
      ensures Demoted(v).Sinking(v, at[v].right, if RemovalKeepsHeap(v) then null else at[v].right)
    {
      var d := Demoted(v);
      var bad := if RemovalKeepsHeap(v) then null else at[v].right;
      assert NodeOk(v) && HeapAt(v);
      ParentIsOk(v);
      assert at[v].left != null ==> HeapAt(at[v].left);
      assert at[v].right != null ==> HeapAt(at[v].right);
      forall m | m in at && m != v && at[m].parent != v
        ensures d.HeapAt(m)
      {
        assert HeapAt(m);
      }
      assert d.SheddingLeft(v, at[v].right, bad);
    }

    lemma RotatedSunk(v: TreapNode<T>, side: Side, bad: TreapNode?<T>)
      requires Ok() && Rotatable(v, side) && Sunk(v, bad) && MayRise(v, side, bad)
      ensures Rotated(v, side).Sunk(v, bad)
    {
      Around(v, side);
      var r := Rotated(v, side);
      forall m | m in r.at && m != v && r.at[m].parent != v && m != bad
        ensures r.HeapAt(m)
      {
        assert at[m].parent != v ==> HeapAt(m);
        SunkAt(v, side, bad, m);
      }
    }

    /** The link above `m` after the rotation: the one above `v` before it, or the same as before. */
    lemma SunkAt(v: TreapNode<T>, side: Side, bad: TreapNode?<T>, m: TreapNode<T>)
      requires Rotatable(v, side) && AroundDistinct(v, side) && MayRise(v, side, bad)
      requires m in at && m != v && m != bad && Rotated(v, side).at[m].parent != v && (at[m].parent != v ==> HeapAt(m))
      ensures Rotated(v, side).HeapAt(m)
    {
      assert RotatedFields(v, side, m).priority == at[m].priority;
      var q := Rotated(v, side).at[m].parent;
      if q != null {
        assert q in at && RotatedFields(v, side, q).priority == at[q].priority;
      }
    }

    lemma RotatedSheddingLeft(v: TreapNode<T>, r0: TreapNode?<T>, bad: TreapNode?<T>)
      requires Ok() && Rotatable(v, LeftChild) && Sinking(v, r0, bad)
      ensures Rotated(v, LeftChild).Sinking(v, r0, bad)
    {
      Around(v, LeftChild);
      RotatedSunk(v, LeftChild, bad);
      RotatedOk(v, LeftChild);
      var r := Rotated(v, LeftChild);
      var c := at[at[v].left].right;
      assert r.NodeOk(v) && r.NodeOk(at[v].left);
      assert c != null ==> HeapAt(c);
      assert r.at[v].left == null ==> r.at[v].parent == Before(v);
      assert r.SheddingLeft(v, r0, bad);
    }

    lemma RotatedSheddingRight(v: TreapNode<T>, r0: TreapNode?<T>, bad: TreapNode?<T>)
      requires Ok() && Rotatable(v, RightChild) && Sinking(v, r0, bad) && at[v].left == null
      ensures Rotated(v, RightChild).Sinking(v, r0, bad)
    {
      Around(v, RightChild);
      RotatedSunk(v, RightChild, bad);
      RotatedOk(v, RightChild);
      var r := Rotated(v, RightChild);
      var c := at[at[v].right].left;
      assert r.NodeOk(v) && r.NodeOk(at[v].right);
      assert c != null ==> HeapAt(c);
      assert r.SheddingRight(v, r0, bad);
    }

    /** Once `v` is a leaf, cutting it off leaves heap order exactly when no link was bad. */
    lemma PrunedHeap(v: TreapNode<T>, r0: TreapNode?<T>, bad: TreapNode?<T>)
      requires Ok() && Sinking(v, r0, bad) && at[v].left == null && at[v].right == null
      requires bad != null ==>
        bad in at && Before(v) != null && Before(v) in at && at[Before(v)].priority < at[bad].priority
      ensures span[v].pos < |order| && (Pruned(v).HeapOrdered() <==> bad == null)
    {
      assert NodeOk(v);
      var r := Pruned(v);
      forall m | m in r.at && m != bad
        ensures r.HeapAt(m)
      {
        ParentIsOk(m);
        assert HeapAt(m);
      }
      if bad != null {
        assert at[bad].parent == Before(v);
        assert !r.HeapAt(bad);
      }
    }
  }

  /** Removal can break heap order: `c` ends up below `a`, whose priority is smaller. */
  lemma RemovalMayBreakHeap<T>(s: Shape<T>, a: TreapNode<T>, b: TreapNode<T>, c: TreapNode<T>)
    requires a != b && b != c && a != c
    requires s == Shape(b, [a, b, c],
                        map[a := Span(0, 0, 1), b := Span(0, 1, 3), c := Span(2, 2, 3)],
                        map[a := TreapHead(1, LeftChild, 1, b, null, null),
                            b := TreapHead(2, LeftChild, 3, null, a, c),
                            c := TreapHead(3, RightChild, 2, b, null, null)])
    ensures s.Ok() && s.Sorted() && s.HeapOrdered() && !s.RemovalKeepsHeap(b)
  {
    assert s.NodeOk(a) && s.NodeOk(b) && s.NodeOk(c);
  }
}
