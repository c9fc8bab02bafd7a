/**
  The intrusive circular doubly linked list of `include/list.h`.

  A ring is a ghost sequence of link objects; consecutive links point at each other and the last
  one closes the circle. Every operation is specified by what it does to the ring.
 */
module Lists {

  /** A link of a list. `owner` plays the part of `container_of`; the list's own head has none. */
  class ListHead<T> {
    var prev: ListHead<T>
    var next: ListHead<T>
    var owner: T

    constructor (owner: T)
      ensures prev == this && next == this && this.owner == owner
    {
      this.owner := owner;
      prev, next := this, this;
    }
  }

  /** The links of `ring`, in order, form one closed circle. */
  ghost predicate Ring<T>(ring: seq<ListHead<T>>)
    reads ring`prev, ring`next
  {
    && |ring| > 0
    && (forall i, j :: 0 <= i < j < |ring| ==> ring[i] != ring[j])
    && (forall i {:trigger ring[i].next} :: 0 <= i < |ring| ==>
          ring[i].next == if i + 1 < |ring| then ring[i + 1] else ring[0])
    && (forall i {:trigger ring[i].prev} :: 0 <= i < |ring| ==>
          ring[i].prev == if i == 0 then ring[|ring| - 1] else ring[i - 1])
  }

  /** `LIST_INIT`: a link that points at itself is a ring of its own. */
  lemma RingOfOne<T>(list: ListHead<T>)
    requires list.prev == list.next == list
    ensures Ring([list])
  {
  }

  /** `list_unshift`: adds `elem` right after `list`, which may be any link of the ring. */
  method Unshift<T>(list: ListHead<T>, elem: ListHead<T>, ghost ring: seq<ListHead<T>>, ghost k: nat)
    requires Ring(ring) && k < |ring| && ring[k] == list
    requires elem !in ring && elem.prev == elem.next == elem
    modifies list`next, list.next`prev, elem`prev, elem`next
    ensures Ring(ring[..k + 1] + [elem] + ring[k + 1..])
  {
    elem.prev := list;
    elem.next := list.next;
    elem.prev.next := elem;
    elem.next.prev := elem;
  }

  /** `list_push`: adds `elem` right before `list`, so at the end when `list` is the head. */
  method Push<T>(list: ListHead<T>, elem: ListHead<T>, ghost ring: seq<ListHead<T>>)
    requires Ring(ring) && ring[0] == list
    requires elem !in ring && elem.prev == elem.next == elem
    modifies list`prev, list.prev`next, elem`prev, elem`next
    ensures Ring(ring + [elem])
  {
    elem.prev := list.prev;
    elem.next := list;
    elem.prev.next := elem;
    elem.next.prev := elem;
  }

  /** `list_remove`: unlinks `elem` and leaves it pointing at itself. */
  method Remove<T>(elem: ListHead<T>, ghost ring: seq<ListHead<T>>, ghost k: nat)
    requires Ring(ring) && 1 <= k < |ring| && ring[k] == elem
    modifies elem.prev`next, elem.next`prev, elem`prev, elem`next
    ensures Ring(ring[..k] + ring[k + 1..])
    ensures elem.prev == elem.next == elem
  {
    elem.prev.next := elem.next;
    elem.next.prev := elem.prev;
    elem.prev, elem.next := elem, elem;
  }

  /** `list_shift`: unlinks the first element after the head. */
  method Shift<T>(list: ListHead<T>, ghost ring: seq<ListHead<T>>) returns (out: ListHead<T>)
    requires Ring(ring) && ring[0] == list && |ring| > 1
    modifies list`next, list.next`prev, list.next`next, list.next.next`prev
    ensures out == ring[1] && Ring([list] + ring[2..])
    ensures out.prev == out.next == out
  {
    out := list.next;
    list.next := out.next;
    list.next.prev := list;
    out.prev, out.next := out, out;
  }
}
