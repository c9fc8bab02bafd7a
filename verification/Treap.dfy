/**
  The treap operations of `mm/virtual_alloc.c` on the mutable nodes.

  `shape` follows the nodes; the methods rewrite links in place, as the source does, and the ghost
  shape takes the same step.
 */
module Treaps {
  import opened Integers
  import opened TreapShape

  /** Where `value` belongs in a sorted order: after all smaller values, before all others. */
  ghost predicate SortedPlace<T>(s: Shape<T>, value: u32, k: nat)
    requires s.Ok()
  {
    k <= |s.order| && s.Separates(value, k, k)
  }

  class Treap<T> {
    var root: TreapNode?<T>
    ghost var shape: Shape<T>

    constructor ()
      ensures Valid() && shape == Shape(null, [], map[], map[])
    {
      root := null;
      shape := Shape(null, [], map[], map[]);
    }

    /** `shape` is what the nodes say. */
    ghost predicate Synced()
      reads this, shape.at.Keys`head
    {
      shape.root == root && forall n :: n in shape.at ==> n.head == shape.at[n]
    }

    /** A binary search tree whose members all have a priority. Heap order is a separate matter. */
    ghost predicate Valid()
      reads this, shape.at.Keys`head
    {
      && Synced() && shape.Ok() && shape.Sorted()
      && (forall n :: n in shape.at ==> shape.at[n].priority != 0)
    }

    /** The link changes of `treap_rotate`. */
    method RotateLinks(n: TreapNode<T>, side: Side)
      requires Synced() && shape.Rotatable(n, side) && shape.AroundDistinct(n, side)
      modifies `root, shape.at.Keys`head
      ensures forall m :: m in shape.at ==> m.head == shape.RotatedFields(n, side, m)
      ensures root == if shape.at[n].parent == null then shape.at[n].Child(side) else old(root)
    {
      var up := n.head.Child(side);
      var p := n.head.parent;
      var c := up.head.Child(side.Other());
      n.head := n.head.WithChild(side, c);
      if c != null {
        c.head := c.head.(parent := n, whichChild := side);
      }
      up.head := up.head.WithChild(side.Other(), n).(parent := p, whichChild := n.head.whichChild);
      n.head := n.head.(parent := up, whichChild := side.Other());
      if p != null {
        p.head := p.head.WithChild(up.head.whichChild, up);
      } else {
        root := up;
      }
    }

    /** `treap_rotate`: the nodes trade places and the in-order sequence stays. */
    method Rotate(n: TreapNode<T>, side: Side)
      requires Synced() && shape.Ok() && shape.Rotatable(n, side)
      modifies this, shape.at.Keys`head
      ensures Synced() && shape.Ok()
      ensures shape == old(shape).Rotated(n, side)
    {
      shape.Around(n, side);
      shape.RotatedOk(n, side);
      RotateLinks(n, side);
      shape := shape.Rotated(n, side);
    }

    /** The descent of `treap_insert`: a free child place where `value` fits the search order. */
    method FindPlace(value: u32) returns (parent: TreapNode<T>, side: Side)
      requires Synced() && shape.Ok() && shape.Sorted() && root != null
      ensures parent in shape.at && parent in shape.span && shape.at[parent].Child(side) == null
      ensures SortedPlace(shape, value, shape.span[parent].To(side))
    {
      parent := root;
      side := if value <= parent.head.value then LeftChild else RightChild;
      assert shape.NodeOk(parent);
      while parent.head.Child(side) != null
        invariant parent in shape.at && shape.NodeOk(parent)
        invariant shape.Separates(value, shape.span[parent].lo, shape.span[parent].hi)
        invariant side == shape.Toward(value, parent)
        decreases shape.span[parent].hi - shape.span[parent].lo
      {
        shape.SeparatesChild(value, parent);
        assert shape.ChildOk(parent, side);
        parent := parent.head.Child(side);
        assert shape.NodeOk(parent);
        side := if value <= parent.head.value then LeftChild else RightChild;
      }
      shape.SeparatesChild(value, parent);
      assert shape.ChildOk(parent, side);
    }

    /** Hangs `v` under `parent`, without regard to priorities. */
    method Attach(v: TreapNode<T>, parent: TreapNode<T>, side: Side)
      requires Synced() && shape.Ok() && shape.Graftable(parent, side, v)
      requires v.head == Detached(v.head.value).(priority := v.head.priority)
      modifies this, v`head, parent`head
      ensures Synced() && shape.Ok()
      ensures shape == old(shape).Grafted(parent, side, v, old(v.head.value), old(v.head.priority))
    {
      shape.GraftedOk(parent, side, v, v.head.value, v.head.priority);
      assert parent.head == shape.at[parent];
      shape := shape.Grafted(parent, side, v, v.head.value, v.head.priority);
      parent.head := parent.head.WithChild(side, v);
      v.head := v.head.(whichChild := side, parent := parent);
    }

    method RiseStep(v: TreapNode<T>)
      requires Synced() && shape.Ok() && v in shape.at && v.head.parent != null
      requires v.head.parent.head.priority < v.head.priority
      modifies this, shape.at.Keys`head
      ensures Synced() && shape.Ok() && old(shape).SameNodes(shape) && v in shape.at
      ensures old(shape).span[v].hi - old(shape).span[v].lo < shape.span[v].hi - shape.span[v].lo <= |shape.order|
      ensures old(shape).Rising(v) ==> shape.Rising(v)
    {
      hide *;
      var parent := v.head.parent;
      var side := v.head.whichChild;
      RiseFacts(v, parent, side);
      Rotate(parent, side);
    }

    /** What the rotation of `v` above its parent does. */
    lemma RiseFacts(v: TreapNode<T>, parent: TreapNode<T>, side: Side)
      requires Synced() && shape.Ok() && v in shape.at && v.head.parent == parent && v.head.whichChild == side
      requires parent.head.priority < v.head.priority
      ensures shape.Rotatable(parent, side)
      ensures var r := shape.Rotated(parent, side);
        && v in shape.span && v in r.span && v in r.at && shape.SameNodes(r)
        && shape.span[v].hi - shape.span[v].lo < r.span[v].hi - r.span[v].lo <= |r.order|
        && (shape.Rising(v) ==> r.Rising(v))
    {
      shape.ParentIsOk(v);
      assert v.head == shape.at[v] && parent.head == shape.at[parent];
      assert shape.NodeOk(v) && shape.NodeOk(parent) && shape.ChildOk(parent, side);
      shape.RotatedSameNodes(parent, side);
      hide Shape.Rising;
      if shape.Rising(v) {
        shape.RotatedRising(parent, side);
      }
    }

    /** The way back up in `treap_insert`: rotates `v` above every smaller parent. */
    method RiseUp(v: TreapNode<T>)
      requires Synced() && shape.Ok() && v in shape.at
      modifies this, shape.at.Keys`head
      ensures Synced() && shape.Ok() && old(shape).SameNodes(shape)
      ensures old(shape).Rising(v) ==> shape.HeapOrdered()
    {
      ghost var s := shape;
      while v.head.parent != null && v.head.parent.head.priority < v.head.priority
        invariant Synced() && shape.Ok() && s.SameNodes(shape)
        invariant s.Rising(v) ==> shape.Rising(v)
        decreases |shape.order| - (shape.span[v].hi - shape.span[v].lo)
      {
        RiseStep(v);
      }
      assert v.head == shape.at[v];
      if v.head.parent != null {
        shape.ParentIsOk(v);
      }
    }

    /** An empty treap takes `v` as its root. */
    method InsertRoot(v: TreapNode<T>)
      requires Synced() && shape.Ok() && root == null
      requires v.head == Detached(v.head.value).(priority := v.head.priority)
      modifies this
      ensures Synced() && shape.Ok()
      ensures Inserted(old(shape), shape, v, v.head.value, v.head.priority, 0)
      ensures shape.HeapOrdered()
    {
      assert forall n :: n in shape.at ==> shape.NodeOk(n);
      root := v;
      shape := Shape(v, [v], map[v := Span(0, 0, 1)], map[v := v.head]);
      assert shape.NodeOk(v);
    }

    /** A treap with members takes `v` as a leaf and lets it rise. */
    method InsertBelow(v: TreapNode<T>) returns (ghost k: nat)
      requires Synced() && shape.Ok() && shape.Sorted() && root != null && v !in shape.at
      requires v.head == Detached(v.head.value).(priority := v.head.priority)
      modifies this, shape.at.Keys`head, v`head
      ensures Synced() && shape.Ok()
      ensures Inserted(old(shape), shape, v, old(v.head.value), old(v.head.priority), k)
      ensures old(shape).HeapOrdered() ==> shape.HeapOrdered()
    {
      hide *;
      ghost var s, value, priority := shape, v.head.value, v.head.priority;
      var parent, side := FindPlace(v.head.value);
      k := GraftFacts(s, v, parent, side, value, priority);
      Attach(v, parent, side);
      ghost var g := shape;
      RiseUp(v);
      SameInserted(s, g, shape, v, value, priority, k);
    }

    lemma GraftFacts(s: Shape<T>, v: TreapNode<T>, parent: TreapNode<T>, side: Side, value: u32, priority: u31)
      returns (k: nat)
      requires s.Ok() && s.Sorted() && v !in s.at && parent in s.at && s.at[parent].Child(side) == null
      requires parent in s.span && SortedPlace(s, value, s.span[parent].To(side))
      ensures s.Graftable(parent, side, v)
      ensures var g := s.Grafted(parent, side, v, value, priority);
        && Inserted(s, g, v, value, priority, k) && g.at.Keys == s.at.Keys + {v} && v in g.at
        && (s.HeapOrdered() ==> g.Rising(v))
    {
      k := s.span[parent].To(side);
      PlaceFits(s, value, k);
      assert s.Graftable(parent, side, v);
      hide *;
      GraftInserts(s, v, parent, side, value, priority);
      if s.HeapOrdered() {
        s.GraftedRising(parent, side, v, value, priority);
      }
    }

    lemma PlaceFits(s: Shape<T>, value: u32, k: nat)
      requires s.Ok() && SortedPlace(s, value, k)
      ensures k <= |s.order| && s.span.Keys == s.at.Keys
    {
    }

    lemma GraftInserts(s: Shape<T>, v: TreapNode<T>, parent: TreapNode<T>, side: Side, value: u32, priority: u31)
      requires s.Ok() && s.Graftable(parent, side, v) && parent in s.span
      requires SortedPlace(s, value, s.span[parent].To(side))
      ensures var g := s.Grafted(parent, side, v, value, priority);
        && Inserted(s, g, v, value, priority, s.span[parent].To(side)) && g.at.Keys == s.at.Keys + {v}
    {
      hide Shape.Ok, SortedPlace;
    }

    lemma SameInserted(s: Shape<T>, g: Shape<T>, s': Shape<T>, v: TreapNode<T>, value: u32, priority: u31, k: nat)
      requires s.Ok() && Inserted(s, g, v, value, priority, k) && g.SameNodes(s')
      ensures Inserted(s, s', v, value, priority, k)
    {
      hide Shape.Ok, SortedPlace;
    }

    /**
      `treap_insert`. `random` is the draw that ended the loop at lines 218-220: nonzero there, but maybe
      zero after masking. Then the new member looks like no member at all.
     */
    method Insert(v: TreapNode<T>, random: u32) returns (ghost k: nat)
      requires Valid() && v !in shape.at && v.head == Detached(v.head.value)
      modifies this, shape.at.Keys`head, v`head
      ensures Synced() && shape.Ok() && shape.Sorted()
      ensures Inserted(old(shape), shape, v, old(v.head.value), random % 0x8000_0000, k)
      ensures Valid() <==> random % 0x8000_0000 != 0
      ensures old(shape).HeapOrdered() ==> shape.HeapOrdered()
    {
      ghost var s := shape;
      v.head := v.head.(priority := random % 0x8000_0000);
      ghost var value, priority := v.head.value, v.head.priority;
      if root == null {
        InsertRoot(v);
        k := 0;
      } else {
        k := InsertBelow(v);
      }
      InsertedSorted(s, shape, v, value, priority, k);
    }

    /** One turn of the loop of `treap_remove`. */
    method SinkStep(v: TreapNode<T>, side: Side)
      requires Synced() && shape.Ok() && v in shape.at && v.head.Child(side) != null
      requires side == if v.head.left != null then LeftChild else RightChild
      modifies this, shape.at.Keys`head
      ensures Synced() && shape.Ok() && old(shape).SameNodes(shape) && v in shape.at
      ensures shape.span[v].hi - shape.span[v].lo < old(shape).span[v].hi - old(shape).span[v].lo
      ensures forall r0, bad :: old(shape).Sinking(v, r0, bad) ==> shape.Sinking(v, r0, bad)
    {
      ghost var s := shape;
      assert v.head == s.at[v] && s.NodeOk(v) && s.NodeOk(v.head.Child(side));
      s.RotatedSameNodes(v, side);
      forall r0, bad | s.Sinking(v, r0, bad)
        ensures s.Rotated(v, side).Sinking(v, r0, bad)
      {
        if side == LeftChild {
          s.RotatedSheddingLeft(v, r0, bad);
        } else {
          s.RotatedSheddingRight(v, r0, bad);
        }
      }
      Rotate(v, side);
      assert shape.NodeOk(v);
    }

    /** The loop of `treap_remove`: rotates `v` down until it is a leaf. */
    method SinkDown(v: TreapNode<T>)
      requires Synced() && shape.Ok() && v in shape.at
      modifies this, shape.at.Keys`head
      ensures Synced() && shape.Ok() && old(shape).SameNodes(shape) && v in shape.at
      ensures shape.at[v].left == null && shape.at[v].right == null
      ensures forall r0, bad :: old(shape).Sinking(v, r0, bad) ==> shape.Sinking(v, r0, bad)
    {
      ghost var s := shape;
      while true
        invariant Synced() && shape.Ok() && s.SameNodes(shape) && v in shape.at
        invariant forall r0, bad :: s.Sinking(v, r0, bad) ==> shape.Sinking(v, r0, bad)
        decreases shape.span[v].hi - shape.span[v].lo
      {
        assert shape.NodeOk(v) && v.head == shape.at[v];
        var side;
        if v.head.left != null {
          side := LeftChild;
        } else if v.head.right != null {
          side := RightChild;
        } else {
          break;
        }
        SinkStep(v, side);
      }
    }

    /** The end of `treap_remove`: cuts the leaf `v` off. */
    method Detach(v: TreapNode<T>)
      requires Synced() && shape.Ok() && v in shape.at && shape.at[v].left == null && shape.at[v].right == null
      modifies this, shape.at.Keys`head
      ensures Synced() && shape.Ok() && old(shape).span[v].pos < |old(shape).order|
      ensures shape == old(shape).Pruned(v)
      ensures v.head == Detached(old(v.head.value))
    {
      shape.ParentIsOk(v);
      shape.PrunedOk(v);
      assert v.head == shape.at[v];
      ghost var s := shape;
      shape := shape.Pruned(v);
      if v.head.parent != null {
        assert v.head.parent.head == s.at[v.head.parent];
        assert v.head.parent.head.Child(v.head.whichChild) == v;
        v.head.parent.head := v.head.parent.head.WithChild(v.head.whichChild, null);
      } else {
        assert root == v;
        root := null;
      }
      v.head := Detached(v.head.value);
    }

    /** The start of `treap_remove`: the priority goes. */
    method Demote(v: TreapNode<T>)
      requires Synced() && shape.Ok() && v in shape.at
      modifies this, v`head
      ensures Synced() && shape.Ok() && shape == old(shape).Demoted(v)
    {
      shape.DemotedOk(v);
      shape := shape.Demoted(v);
      v.head := v.head.(priority := 0);
    }

    /**
      `treap_remove`. Search order always survives. Heap order survives exactly when
      `RemovalKeepsHeap` holds, because the loop rotates left children up whatever their priority.
     */
    method Remove(v: TreapNode<T>)
      requires Valid() && v in shape.at
      modifies this, shape.at.Keys`head
      ensures Valid() && v in old(shape).span && Removed(old(shape), shape, v)
      ensures v.head == Detached(old(v.head.value))
      ensures old(shape).HeapOrdered() ==> (shape.HeapOrdered() <==> old(shape).RemovalKeepsHeap(v))
    {
      ghost var s := shape;
      Demote(v);
      SinkDown(v);
      SunkRemoved(s, shape, v);
      Detach(v);
      RemovedSorted(s, shape, v);
    }
  }

  /** `s'` is `s` without `v`. */
  ghost predicate Removed<T>(s: Shape<T>, s': Shape<T>, v: TreapNode<T>)
    requires v in s.span
  {
    var k := s.span[v].pos;
    && k < |s.order| && s.order[k] == v
    && s'.order == s.order[..k] + s.order[k + 1..]
    && s'.at.Keys == s.at.Keys - {v}
    && (forall m :: m in s'.at && m in s.at ==>
          s'.at[m].value == s.at[m].value && s'.at[m].priority == s.at[m].priority)
  }

  /** What rotating `v` down and then cutting it off amounts to. */
  lemma SunkRemoved<T>(s: Shape<T>, t: Shape<T>, v: TreapNode<T>)
    requires s.Ok() && v in s.at && t.Ok() && v in t.at && s.Demoted(v).SameNodes(t)
    requires t.at[v].left == null && t.at[v].right == null
    requires forall r0, bad :: s.Demoted(v).Sinking(v, r0, bad) ==> t.Sinking(v, r0, bad)
    ensures t.span[v].pos < |t.order| && Removed(s, t.Pruned(v), v)
    ensures s.HeapOrdered() ==> (t.Pruned(v).HeapOrdered() <==> s.RemovalKeepsHeap(v))
  {
    assert s.NodeOk(v) && t.NodeOk(v);
    var k := t.span[v].pos;
    assert s.order[k] == v;
    assert s.span[v].pos == k;
    if s.HeapOrdered() {
      var bad := if s.RemovalKeepsHeap(v) then null else s.at[v].right;
      s.DemotedSinking(v);
      if bad != null {
        assert s.NodeOk(bad) && s.NodeOk(s.at[v].left);
        assert s.Before(v) != null && s.NodeOk(s.Before(v));
      }
      t.PrunedHeap(v, s.at[v].right, bad);
    }
  }

  lemma RemovedSorted<T>(s: Shape<T>, s': Shape<T>, v: TreapNode<T>)
    requires s.Ok() && s.Sorted() && s'.Ok() && v in s.at && Removed(s, s', v)
    ensures s'.Sorted()
  {
    var k := s.span[v].pos;
    forall i, j | 0 <= i < j < |s'.order|
      ensures s'.at[s'.order[i]].value <= s'.at[s'.order[j]].value
    {
      assert forall i :: 0 <= i < |s'.order| ==> s'.order[i] == if i < k then s.order[i] else s.order[i + 1];
    }
  }

  /** `s'` is `s` with `v` added at the place where its value belongs. */
  ghost predicate Inserted<T>(s: Shape<T>, s': Shape<T>, v: TreapNode<T>, value: u32, priority: u31, k: nat)
    requires s.Ok()
  {
    && SortedPlace(s, value, k)
    && s'.order == s.order[..k] + [v] + s.order[k..]
    && s'.at.Keys == s.at.Keys + {v}
    && s'.at[v].value == value && s'.at[v].priority == priority
    && (forall m :: m in s.at && m != v ==>
          s'.at[m].value == s.at[m].value && s'.at[m].priority == s.at[m].priority)
  }

  lemma InsertedAt<X>(a: seq<X>, k: nat, x: X, b: seq<X>)
    requires k <= |a| && b == a[..k] + [x] + a[k..]
    ensures |b| == |a| + 1
    ensures forall i :: 0 <= i < |b| ==> b[i] == if i < k then a[i] else if i == k then x else a[i - 1]
  {
  }

  lemma InsertedSorted<T>(s: Shape<T>, s': Shape<T>, v: TreapNode<T>, value: u32, priority: u31, k: nat)
    requires s.Ok() && s.Sorted() && s'.Ok() && v !in s.at && Inserted(s, s', v, value, priority, k)
    ensures s'.Sorted()
  {
    InsertedAt(s.order, k, v, s'.order);
    assert forall i :: 0 <= i < |s.order| ==> s.order[i] in s.at && s.order[i] != v;
    hide Shape.Ok;
    forall i, j | 0 <= i < j < |s'.order|
      ensures s'.at[s'.order[i]].value <= s'.at[s'.order[j]].value
    {
    }
  }

  /** A draw that is not zero gives priority zero after masking exactly when it is 0x80000000. */
  lemma MaskedDraw(random: u32)
    requires random != 0
    ensures random % 0x8000_0000 == 0 <==> random == 0x8000_0000
  {
  }
}
