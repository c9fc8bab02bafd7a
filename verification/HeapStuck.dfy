/** A run of the heap that ends in the failed assertion of `alloc_generic`. */
module HeapStuck {
  import opened SizeClasses
  import opened HeapLists
  import opened HeapPages
  import opened Heap

  /** `pages_direct` has `page` for the size, and the class has no other page. */
  ghost predicate Alone(h: Heap, page: Page, size: nat)
    reads h, h.loc.Keys, h.at.Values
  {
    && h.Valid() && 0 < size <= 1024 && |h.direct| == 128 && h.DirectPage(size) == page
    && Class(ClassOfSize(size)) in h.lists && h.lists[Class(ClassOfSize(size))] == [page]
  }

  /** What follows for the page. */
  lemma AloneIs(h: Heap, page: Page, size: nat)
    requires Alone(h, page, size)
    ensures page in h.loc && h.loc[page] == Class(ClassOfSize(size)) && page.Valid()
    ensures page.sizeClass == ClassOfSize(size) && ClassIsValid(page.sizeClass) && InPagesDirect(page.sizeClass)
  {
    var c := ClassOfSize(size);
    h.ValidParts();
    h.DirectFacts(size);
    h.Conjuncts(null);
    Member(h.lists, h.loc, Class(c), page);
    h.OkHere(page);
    SmallClass(size);
  }

  lemma SmallClass(size: nat)
    requires 0 < size <= 1024
    ensures ClassIsValid(ClassOfSize(size)) && InPagesDirect(ClassOfSize(size))
  {
    ClassOfSizeIs(size, ClassOfSize(size));
    DirectIndexClass(size);
  }

  /** With nothing handed out and nothing left to allocate, the search is stuck. */
  lemma EmptiedIsStuck(h: Heap, page: Page, size: nat)
    requires Alone(h, page, size) && h.live == map[]
    ensures h.Stuck(ClassOfSize(size))
  {
    AloneIs(h, page, size);
    SmallClass(size);
    h.ValidParts();
    h.SaysNow(page);
    NothingHanded(h, page);
    hide ClassOfSize, InPagesDirect, ClassIsValid;
  }

  lemma NothingHanded(h: Heap, page: Page)
    requires h.Open(null) && page in h.loc && page.usedBlocks == |page.handed| && h.live == map[]
    ensures page.usedBlocks == 0
  {
    assert forall b :: b !in page.handed;
  }

  lemma AloneAtFirst(h: Heap, size: nat)
    requires h.Valid() && OnePageEach(h, 8) && 0 < size <= 1024
    ensures |h.direct| == 128 && 0 <= DirectIndex(size) < 128
    ensures h.direct[DirectIndex(size)] != null && Alone(h, h.direct[DirectIndex(size)], size)
  {
    h.ValidParts();
    h.DirectFacts(size);
    DirectIndexClass(size);
    assert ClassOfSize(SizeOfIndex(DirectIndex(size))) == ClassOfSize(size);
    hide ClassOfSize;
  }

  /** The blocks at `ptrs`, and no others, are handed out, all of one page. */
  ghost predicate AllOf(live: map<nat, Page>, ptrs: seq<nat>, page: Page) {
    && (forall b :: b in live <==> b in ptrs) && (forall b :: b in live ==> live[b] == page)
    && (forall i, j :: 0 <= i < j < |ptrs| ==> ptrs[i] != ptrs[j])
  }

  /**
    Every block of the first page for a size is allocated, then all are freed; the next allocation of the size
    fails the assertion that the list of the class is empty.
   */
  method DrainAndFree(base: nat, size: nat) returns (r: AllocResult)
    requires BaseOk(base) && 0 < size <= 1024
    ensures r == Halted
  {
    hide *;
    var heap := InitHeap(base);
    AloneAtFirst(heap, size);
    var page: Page := heap.direct[DirectIndex(size)];
    var ptrs: seq<nat> := [];
    AloneIs(heap, page, size);
    NoneYet(page);
    var full := page.IsFull();
    while !full
      invariant Alone(heap, page, size) && AllOf(heap.live, ptrs, page) && page in heap.loc && page.Valid()
      invariant fresh(heap) && fresh(heap.loc.Keys) && fresh(heap.at.Values)
      invariant full <==> page.freeList == []
      decreases |page.freeList|
    {
      ghost var live, was := heap.live, ptrs;
      AlonePage(heap, page, size);
      heap.SpaceIs(size, NoneLeft);
      r := heap.Alloc(size, NoneLeft);
      AloneStill(heap, page, size);
      ptrs := ptrs + [r.ptr];
      OneMore(live, heap.live, was, r.ptr, page);
      AloneIs(heap, page, size);
      full := page.IsFull();
    }
    while ptrs != []
      invariant Alone(heap, page, size) && AllOf(heap.live, ptrs, page) && page in heap.loc && page.freeList == []
      invariant fresh(heap) && fresh(heap.loc.Keys) && fresh(heap.at.Values)
    {
      ghost var live, m, at, lists, direct := heap.live, heap.loc, heap.at, heap.lists, heap.direct;
      ghost var c, used := page.sizeClass, page.usedBlocks;
      FirstOf(heap.live, ptrs, page);
      AloneIs(heap, page, size);
      AlonePage(heap, page, size);
      heap.Free(ptrs[0]);
      heap.StaysIfAlone(m, at, lists, direct, page, c, used);
      AloneStill(heap, page, size);
      OneLess(live, heap.live, ptrs, page);
      ptrs := ptrs[1..];
    }
    NothingLeft(heap.live, page);
    EmptiedIsStuck(heap, page, size);
    AlonePage(heap, page, size);
    heap.SpaceIs(size, NoneLeft);
    r := heap.Alloc(size, NoneLeft);
  }

  lemma AlonePage(h: Heap, page: Page, size: nat)
    requires Alone(h, page, size)
    ensures h.Valid() && 0 < size <= 1024 && |h.direct| == 128 && h.DirectPage(size) == page
    ensures Class(ClassOfSize(size)) in h.lists && h.lists[Class(ClassOfSize(size))] == [page]
  {
  }

  lemma AloneStill(h: Heap, page: Page, size: nat)
    requires h.Valid() && 0 < size <= 1024 && |h.direct| == 128 && h.DirectPage(size) == page
    requires Class(ClassOfSize(size)) in h.lists && h.lists[Class(ClassOfSize(size))] == [page]
    ensures Alone(h, page, size)
  {
  }

  lemma NoneYet(page: Page)
    ensures AllOf(map[], [], page)
  {
  }

  lemma OneMore(live: map<nat, Page>, live': map<nat, Page>, ptrs: seq<nat>, b: nat, page: Page)
    requires AllOf(live, ptrs, page) && b !in live && live' == live[b := page]
    ensures AllOf(live', ptrs + [b], page)
  {
  }

  lemma FirstOf(live: map<nat, Page>, ptrs: seq<nat>, page: Page)
    requires AllOf(live, ptrs, page) && ptrs != []
    ensures ptrs[0] in live && live[ptrs[0]] == page
  {
  }

  lemma OneLess(live: map<nat, Page>, live': map<nat, Page>, ptrs: seq<nat>, page: Page)
    requires AllOf(live, ptrs, page) && ptrs != [] && live' == live - {ptrs[0]}
    ensures AllOf(live', ptrs[1..], page)
  {
    forall b
      ensures b in ptrs[1..] <==> b in ptrs && b != ptrs[0]
    {
      if b in ptrs && b != ptrs[0] {
        var i :| 0 <= i < |ptrs| && ptrs[i] == b;
        assert ptrs[1..][i - 1] == b;
      }
    }
  }

  lemma NothingLeft(live: map<nat, Page>, page: Page)
    requires AllOf(live, [], page)
    ensures live == map[]
  {
  }
}
