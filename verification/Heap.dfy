/** `mm/alloc.c`, `mm/alloc/heap.c` and `mm/alloc/segment.c`: the heap of one hart. */
module Heap {
  import opened Integers
  import opened SizeClasses
  import opened HeapLists
  import opened HeapPages

  datatype AllocResult = Got(ptr: nat) | OutOfMemory | Halted

  /**
    How `segment_alloc` ends, when it gets as far as looking for space: with a segment at `base`, with a null
    pointer, or in a failed assertion or the `TODO` for missing frames.
   */
  datatype Space = Found(base: nat) | NoneLeft | Stopped

  /** Where a block comes from: whether a segment is asked for, the first usable page, and its first block. */
  datatype Source = Source(asks: bool, first: Page?, block: nat)

  /**
    What the search for a page starts from: the list of the class, the lists that all pages are in, which
    pages of the class are empty and which usable, and the blocks that each would have to allocate.
   */
  datatype Search = Search(list: seq<Page>, before: map<Page, ListId>, empty: set<Page>, usable: seq<bool>,
                           free: seq<seq<nat>>)

  /** The largest VMA that `vma_alloc` takes a request for. */
  const MAX_BYTES: nat := 0x40_0000_0000

  /** The pages that `segment_alloc` asks for, 0 where an assertion about the size fails before that. */
  function PagesFor(bytes: u64): nat {
    var pages := (bytes + 4095) % 0x1_0000_0000_0000_0000 / 4096;
    if !SizeIsHuge(bytes) || pages > MAX_BYTES / 4096 then 0 else pages
  }

  /** What `page_new_huge` asks for, with the two pages for the header. */
  function WithHeader(size: u64): u64 { (size + 0x2000) % 0x1_0000_0000_0000_0000 }

  /** Whether a size is small enough not to trip those assertions: exactly if it fits with its header. */
  lemma BoundIs(size: u64)
    requires SizeIsHuge(size)
    ensures PagesFor(WithHeader(size)) > 0 <==> size + 0x2000 <= MAX_BYTES
    ensures size + 0x2000 <= MAX_BYTES ==> PagesFor(WithHeader(size)) * 4096 == Heap.Need(size)
  {
  }

  /** `segment_alloc`. */
  method SegmentAlloc(bytes: u64, space: Space) returns (r: Space)
    ensures r == if PagesFor(bytes) == 0 then Stopped else space
  {
    if !SizeIsHuge(bytes) {
      return Stopped;
    }
    var pages := (bytes + 4095) % 0x1_0000_0000_0000_0000 / 4096;
    r := if 0 < pages <= MAX_BYTES / 4096 then space else Stopped;
  }

  /** A page as the list it is in requires. */
  ghost predicate PageOk(p: Page, l: ListId)
    reads p
  {
    match l
    case Unused => p.segment.shift == 16 && p.handed == {}
    case Nowhere => false
    case Class(c) => p.Valid() && p.sizeClass == c && !p.inFullList && Placed(p.segment.shift, p.index, c)
    case Full => p.Valid() && p.inFullList && ClassIsValid(p.sizeClass) && Placed(p.segment.shift, p.index, p.sizeClass)
  }

  ghost predicate SegmentOk(s: Segment)
    reads s`pages
  {
    && BaseOk(s.base) && s.shift in {14, 16, 22} && |s.pages| == (if s.shift == 16 then 64 else 1)
    && (forall i :: 0 <= i < |s.pages| ==> s.pages[i].segment == s && s.pages[i].index == i)
    && (if s.shift == 14 then s.size > 0x2000 else s.size == 0x40_0000)
  }

  /** `struct mm_alloc_heap`. The page lists are sequences; `at` is the memory where the segments' headers are. */
  class Heap {
    var lists: map<ListId, seq<Page>>
    var direct: seq<Page?>
    var at: map<nat, Segment>

    /** Which list the links of every page are in. */
    var loc: map<Page, ListId>

    /** The page of every block handed out. */
    ghost var live: map<nat, Page>

    /** `heap_init` before its first page: lists without pages. */
    constructor ()
      ensures Open(null) && loc == map[] && at == map[] && live == map[] && direct == seq(128, i => null)
      ensures lists == map l: ListId | l in AllLists() :: []
      ensures Unused in lists && lists[Unused] == []
    {
      lists := map l: ListId | l in AllLists() :: [];
      direct := seq(128, i => null);
      at, loc, live := map[], map[], map[];
    }

    /** The page is where the header of its segment says it is. */
    static ghost predicate Home(at: map<nat, Segment>, p: Page)
      reads at.Values`pages
    {
      && p.segment.base in at && at[p.segment.base] == p.segment
      && p.index < |at[p.segment.base].pages| && at[p.segment.base].pages[p.index] == p
    }

    /** The segments, where their headers say they are, have the pages that the lists hold. */
    static ghost predicate SegmentsOk(at: map<nat, Segment>, m: map<Page, ListId>)
      reads at.Values`pages
    {
      && (forall b {:trigger b in at} :: b in at ==>
            at[b].base == b && SegmentOk(at[b]) && forall i :: 0 <= i < |at[b].pages| ==> at[b].pages[i] in m)
      && (forall p {:trigger Home(at, p)} {:trigger p in m} :: p in m ==> Home(at, p))
      && (forall b, c {:trigger b in at, c in at} :: b in at && c in at && b < c ==> b + at[b].size <= c)
    }

    ghost predicate PagesOk(m: map<Page, ListId>, x: Page?)
      reads m.Keys - {x}
    {
      forall p {:trigger p in m} :: p in m && p != x ==> PageOk(p, m[p])
    }

    /** The number of pages in use is what every segment (but `s`) says it is. */
    static ghost predicate CountsOk(at: map<nat, Segment>, m: map<Page, ListId>, s: Segment?)
      reads at.Values`pages, (at.Values - {s})`usedPages
    {
      forall b {:trigger b in at} :: b in at && at[b] != s ==> at[b].usedPages == UsedCount(at[b].pages, m)
    }

    static ghost predicate DirectAt(direct: seq<Page?>, m: map<Page, ListId>, i: nat, x: Page?)
      requires i < |direct|
      reads (m.Keys - {x})`sizeClass
    {
      direct[i] != null ==>
        direct[i] in m && m[direct[i]] != Unused && (direct[i] != x ==>
          direct[i].sizeClass == ClassOfSize(SizeOfIndex(i)))
    }

    /** Every entry of `pages_direct` is a page in use, for blocks of the right class. */
    static ghost predicate DirectOk(direct: seq<Page?>, m: map<Page, ListId>, x: Page?)
      reads (m.Keys - {x})`sizeClass
    {
      |direct| == 128 && forall i: nat {:trigger DirectAt(direct, m, i, x)} :: i < 128 ==> DirectAt(direct, m, i, x)
    }

    /** The blocks handed out are those that their pages say. */
    ghost predicate LiveOk(m: map<Page, ListId>, x: Page?)
      reads this`live, (m.Keys - {x})`handed
    {
      LiveIn(live, m, x)
    }

    static ghost predicate LiveIn(live: map<nat, Page>, m: map<Page, ListId>, x: Page?)
      reads (m.Keys - {x})`handed
    {
      && (forall b {:trigger b in live} :: b in live ==> live[b] in m && (live[b] != x ==> b in live[b].handed))
      && (forall p, b {:trigger b in p.handed} :: p in m && p != x && b in p.handed ==> b in live && live[b] == p)
    }

    /** A page in the full list has nothing to allocate. */
    ghost predicate FullOk(m: map<Page, ListId>, x: Page?)
      reads m.Keys - {x}
    {
      forall p {:trigger p in m} :: p in m && m[p] == Full && p != x ==> p.freeList == [] && p.localList == []
    }

    /** The heap is in order, but for what page `x` says about itself. */
    ghost predicate Open(x: Page?)
      reads this, loc.Keys - {x}, at.Values
    {
      Rest(x) && LiveOk(loc, x)
    }

    ghost predicate Rest(x: Page?)
      reads this`lists, this`loc, this`at, this`direct, loc.Keys - {x}, at.Values
    {
      && ListsOk(lists, loc) && SegmentsOk(at, loc) && PagesOk(loc, x) && CountsOk(at, loc, null)
      && DirectOk(direct, loc, x)
      && FullOk(loc, x)
    }

    static ghost predicate AllDirect(direct: seq<Page?>) {
      |direct| == 128 && forall i :: 0 <= i < 128 ==> direct[i] != null
    }

    ghost predicate Valid()
      reads this, loc.Keys, at.Values
    {
      Open(null) && AllDirect(direct)
    }

    /** What `pages_direct` and the blocks handed out say about page `x`. */
    ghost predicate Fits(x: Page)
      reads this`direct, this`live, x`sizeClass, x`handed
    {
      && (forall i :: 0 <= i < |direct| && direct[i] == x ==> x.sizeClass == ClassOfSize(SizeOfIndex(i)))
      && (forall b {:trigger b in live} {:trigger b in x.handed} :: b in x.handed <==> b in live && live[b] == x)
    }

    /** Attention turns to page `x`. */
    lemma Opening(x: Page)
      requires Open(null) && x in loc
      ensures Open(x) && PageOk(x, loc[x]) && Fits(x) && Home(at, x) && SegmentOk(x.segment)
      ensures loc[x] == Full ==> x.freeList == [] && x.localList == []
    {
      forall i: nat | i < 128
        ensures DirectAt(direct, loc, i, x)
      {
        assert DirectAt(direct, loc, i, null);
      }
      forall i | 0 <= i < |direct| && direct[i] == x
        ensures x.sizeClass == ClassOfSize(SizeOfIndex(i))
      {
        assert DirectAt(direct, loc, i, null);
      }
      assert x.segment.base in at;
    }

    lemma Closing(x: Page)
      requires Open(x) && x in loc && PageOk(x, loc[x]) && Fits(x)
      requires loc[x] == Full ==> x.freeList == [] && x.localList == []
      ensures Open(null)
    {
      forall i: nat | i < 128
        ensures DirectAt(direct, loc, i, null)
      {
        assert DirectAt(direct, loc, i, x);
      }
    }

    /** Everything else stays in order when page `x` goes to the list `to`, or to none. */
    lemma Relinking(x: Page, to: ListId)
      requires Open(x) && x in loc && (to == Unused ==> x !in direct) && Home(at, x)
      ensures var m, from := loc[x := to], loc[x];
        && SegmentsOk(at, m) && PagesOk(m, x) && DirectOk(direct, m, x) && LiveOk(m, x) && FullOk(m, x)
        && CountsOk(at, m, x.segment)
        && UsedCount(x.segment.pages, m) == x.segment.usedPages
             + (if from == Unused && to != Unused then 1 else if from != Unused && to == Unused then -1 else 0)
    {
      RelinkStates(x, to);
      RelinkDirect(x, to);
      RelinkOthers(x, to);
      OneChange(x, loc[x], to);
    }

    lemma ListFacts(x: Page)
      requires Open(x) && x in loc
      ensures ListsOk(lists, loc)
    {
    }

    lemma RelinkStates(x: Page, to: ListId)
      requires SegmentsOk(at, loc) && PagesOk(loc, x) && LiveOk(loc, x) && FullOk(loc, x) && x in loc
      ensures var m := loc[x := to]; SegmentsOk(at, m) && PagesOk(m, x) && LiveOk(m, x) && FullOk(m, x)
    {
      hide SegmentOk, PageOk;
    }

    lemma RelinkDirect(x: Page, to: ListId)
      requires DirectOk(direct, loc, x) && x in loc && (to == Unused ==> x !in direct)
      ensures DirectOk(direct, loc[x := to], x)
    {
      var m := loc[x := to];
      forall i: nat | i < 128
        ensures DirectAt(direct, m, i, x)
      {
        assert DirectAt(direct, loc, i, x);
      }
    }

    lemma RelinkOthers(x: Page, to: ListId)
      requires SegmentsOk(at, loc) && CountsOk(at, loc, null) && Home(at, x)
      ensures CountsOk(at, loc[x := to], x.segment)
    {
      forall b | b in at && at[b] != x.segment
        ensures at[b].usedPages == UsedCount(at[b].pages, loc[x := to])
      {
        assert SegmentOk(at[b]);
        SameCount(at[b].pages, loc, loc[x := to]);
      }
    }

    lemma OneChange(x: Page, from: ListId, to: ListId)
      requires SegmentsOk(at, loc) && CountsOk(at, loc, null) && x in loc && loc[x] == from && Home(at, x)
      ensures UsedCount(x.segment.pages, loc[x := to]) == x.segment.usedPages
             + (if from == Unused && to != Unused then 1 else if from != Unused && to == Unused then -1 else 0)
    {
      var s := x.segment;
      assert s.base in at && SegmentOk(s);
      OwnPages(s, x);
      CountAfter(s.pages, loc, x, to);
    }

    lemma OwnPages(s: Segment, x: Page)
      requires SegmentOk(s) && x.index < |s.pages| && s.pages[x.index] == x
      ensures Distinct(s.pages) && x in s.pages
    {
      forall i, j | 0 <= i < j < |s.pages|
        ensures s.pages[i] != s.pages[j]
      {
        assert s.pages[i].index == i && s.pages[j].index == j;
      }
    }

    lemma Counted(m: map<Page, ListId>, s: Segment)
      requires CountsOk(at, m, s) && s.usedPages == UsedCount(s.pages, m)
      ensures CountsOk(at, m, null)
    {
    }

    lemma Reopen(x: Page)
      requires ListsOk(lists, loc) && SegmentsOk(at, loc) && PagesOk(loc, x) && CountsOk(at, loc, null)
      requires DirectOk(direct, loc, x)
      requires LiveOk(loc, x) && FullOk(loc, x)
      ensures Open(x)
    {
    }

    /** `list_remove` and `list_shift`: page `x` leaves its list. A page that was unused counts as used from now on. */
    method Unlink(x: Page)
      requires Open(x) && x in loc && loc[x] != Nowhere && Home(at, x)
      modifies this`lists, this`loc, x.segment`usedPages
      ensures Open(x) && loc == old(loc)[x := Nowhere] && Home(at, x)
      ensures old(loc)[x] in old(lists) && lists == Unlinked(old(lists), old(loc)[x], x)
    {
      hide *;
      var from := loc[x];
      ListFacts(x);
      UnlinkedOk(lists, loc, x);
      Relinking(x, Nowhere);
      lists := Unlinked(lists, from, x);
      if from == Unused {
        x.segment.usedPages := x.segment.usedPages + 1;
      }
      loc := loc[x := Nowhere];
      Counted(loc, x.segment);
      Reopen(x);
    }

    /** `list_push`: page `x` goes to the end of a list. An unused page counts as used no longer. */
    method Link(x: Page, to: ListId)
      requires Open(x) && x in loc && loc[x] == Nowhere && to.Exists() && Home(at, x)
      requires to == Unused ==> x !in direct
      modifies this`lists, this`loc, x.segment`usedPages
      ensures Open(x) && loc == old(loc)[x := to] && Home(at, x)
      ensures to in old(lists) && lists == LinkedAtEnd(old(lists), to, x)
    {
      hide *;
      ListFacts(x);
      NotNowhere(to);
      LinkedOk(lists, loc, to, x);
      Relinking(x, to);
      lists := LinkedAtEnd(lists, to, x);
      if to == Unused {
        x.segment.usedPages := x.segment.usedPages - 1;
      }
      loc := loc[x := to];
      Counted(loc, x.segment);
      Reopen(x);
    }

    lemma NotNowhere(l: ListId)
      requires l.Exists()
      ensures l != Nowhere
    {
    }

    // ----- from a block to its page

    /** `page_of_ptr`: the header is found through the segment's address. */
    predicate HasPage(ptr: nat)
      reads this`at, at.Values`pages
    {
      && SegmentOf(ptr) in at
      && 0 <= PageIndexOf(ptr, at[SegmentOf(ptr)].shift) < |at[SegmentOf(ptr)].pages|
    }

    function PageAt(ptr: nat): Page
      requires HasPage(ptr)
      reads this`at, at.Values`pages
    {
      at[SegmentOf(ptr)].pages[PageIndexOf(ptr, at[SegmentOf(ptr)].shift)]
    }

    /** From any of its blocks, a page is found. */
    lemma Found(x: Page, b: nat)
      requires SegmentsOk(at, loc) && x in loc && loc[x] != Unused && PageOk(x, loc[x]) && b in x.Blocks()
      ensures HasPage(b) && PageAt(b) == x && b > 0
    {
      assert Home(at, x) && SegmentOk(x.segment);
      hide *;
      OkPlaced(x, loc[x]);
      PageOfPtr(x.segment.base, x.segment.shift, x.index, x.sizeClass, b, b);
      FoundAt(x, b);
    }

    lemma FoundAt(x: Page, b: nat)
      requires Home(at, x) && BaseOk(x.segment.base)
      requires SegmentOf(b) == x.segment.base && PageIndexOf(b, x.segment.shift) == x.index
      ensures HasPage(b) && PageAt(b) == x && b > 0
    {
    }

    lemma OkPlaced(x: Page, l: ListId)
      requires PageOk(x, l) && l != Unused && SegmentOk(x.segment)
      ensures Placed(x.segment.shift, x.index, x.sizeClass) && BaseOk(x.segment.base) && x.Valid()
      ensures x.Blocks() == BlocksOf(x.segment.base, x.segment.shift, x.index, x.sizeClass)
      ensures forall b :: b in x.handed ==> b in x.Blocks()
    {
      forall b | b in x.handed
        ensures b in x.Blocks()
      {
        assert b in multiset(x.freeList) + multiset(x.localList) + multiset(x.handed);
      }
    }

    // ----- blocks go out and come back

    /** A block of `x` that it has not handed out is handed out by no page. */
    lemma Elsewhere(x: Page, b: nat)
      requires Open(x) && Fits(x) && x in loc && loc[x] != Unused && PageOk(x, loc[x])
      requires b in x.Blocks() && b !in x.handed
      ensures b !in live
    {
      if b in live {
        var y := live[b];
        assert y in loc && Home(at, y) && PageOk(y, loc[y]) && SegmentOk(y.segment);
        OkPlaced(y, loc[y]);
        Found(x, b);
        Found(y, b);
      }
    }

    /** Page `x` alone has handed out or taken back block `b`. */
    lemma Handing(x: Page, b: nat, was: map<nat, Page>)
      requires Rest(x) && x in loc && LiveIn(was, loc, x)
      requires live == was[b := x] || (live == was - {b} && b in was)
      requires b in was ==> was[b] == x
      ensures Open(x)
    {
      hide Rest;
    }

    lemma Parts(x: Page?)
      requires Open(x)
      ensures Rest(x) && LiveIn(live, loc, x)
    {
    }

    /** What page `x` says of itself, with the values that a later moment can be compared with. */
    ghost predicate Says(x: Page, l: ListId, c: nat, full: bool, handed: set<nat>, was: map<nat, Page>)
      reads this`direct
    {
      && l != Nowhere && (l.Class? ==> l.c == c && !full) && (l == Full ==> full && ClassIsValid(c))
      && Placed(x.segment.shift, x.index, c)
      && (forall i :: 0 <= i < |direct| && direct[i] == x ==> c == ClassOfSize(SizeOfIndex(i)))
      && (forall b {:trigger b in was} {:trigger b in handed} :: b in handed <==> b in was && was[b] == x)
    }

    lemma SaysNow(x: Page)
      requires Open(null) && x in loc && loc[x] != Unused
      ensures Rest(x) && LiveIn(live, loc, x) && Says(x, loc[x], x.sizeClass, x.inFullList, x.handed, live)
      ensures x.Valid() && x.ListsOk() && x.usedBlocks == |x.handed|
      ensures loc[x] == Full ==> x.freeList == [] && x.localList == [] && |x.handed| >= 2
      ensures forall b {:trigger b in x.Blocks()} :: b in x.Blocks() && b !in x.handed ==> b !in live
      ensures forall b :: b in x.handed ==> b > 0
    {
      Opening(x);
      assert Home(at, x) && SegmentOk(x.segment);
      OkPlaced(x, loc[x]);
      forall b | b in x.Blocks()
        ensures b !in x.handed ==> b !in live
        ensures b > 0
      {
        Found(x, b);
        if b !in x.handed {
          Elsewhere(x, b);
        }
      }
      if loc[x] == Full {
        TwoBlocks(x);
      }
    }

    /** A page for small or large blocks has at least two of them. */
    lemma TwoBlocks(x: Page)
      requires x.Valid() && x.freeList == [] && x.localList == [] && BaseOk(x.segment.base) && ClassIsValid(x.sizeClass)
      requires Placed(x.segment.shift, x.index, x.sizeClass)
      ensures |x.handed| >= 2
    {
      var c := x.sizeClass;
      Geometry(x.segment.base, x.segment.shift, x.index, c);
      var first, size := FirstBlock(x.segment.base, x.segment.shift, x.index, c), SizeOfClass(c);
      hide SizeOfClass, FirstBlock, PageEnd, Placed, BaseOk;
      SecondBlock(first, size);
      InBlocks(x.segment.base, x.segment.shift, x.index, c, first);
      InBlocks(x.segment.base, x.segment.shift, x.index, c, first + size);
      AllHanded(x);
      assert {first, first + size} <= x.handed;
      assert |{first, first + size}| == 2;
      Subsize({first, first + size}, x.handed);
    }

    lemma AllHanded(x: Page)
      requires x.Valid() && x.freeList == [] && x.localList == []
      ensures x.handed == x.Blocks()
    {
      assert multiset(x.freeList) + multiset(x.localList) + multiset(x.handed) == multiset(x.handed);
      forall b
        ensures b in x.handed <==> b in x.Blocks()
      {
        assert b in x.handed <==> b in multiset(x.handed);
        assert b in x.Blocks() <==> b in multiset(x.Blocks());
      }
    }

    lemma SecondBlock(first: nat, size: nat)
      requires size > 0
      ensures IsBlock(first, first, size) && IsBlock(first + size, first, size)
    {
    }

    lemma Subsize(a: set<nat>, b: set<nat>)
      requires a <= b
      ensures |a| <= |b|
    {
      assert b == a + (b - a);
    }

    lemma Said(x: Page, l: ListId, c: nat, full: bool, handed: set<nat>, was: map<nat, Page>, b: nat)
      requires Rest(x) && x in loc && LiveIn(was, loc, x) && loc[x] == l != Unused && Says(x, l, c, full, handed, was)
      requires x.ListsOk() && x.usedBlocks == |x.handed| && x.sizeClass == c && x.inFullList == full
      requires (live == was && x.handed == handed)
        || (live == was[b := x] && x.handed == handed + {b} && b !in was)
        || (live == was - {b} && x.handed == handed - {b} && b in handed && b in was && was[b] == x)
      ensures Open(x) && PageOk(x, loc[x]) && Fits(x)
    {
      hide *;
      if live != was {
        Handing(x, b, was);
      } else {
        Whole(x);
      }
      SaidFits(x, l, c, full, handed, was, b);
      SaidPage(x, l, c, full, handed, was);
    }

    lemma Whole(x: Page)
      requires Rest(x) && LiveIn(live, loc, x)
      ensures Open(x)
    {
    }

    lemma SaidFits(x: Page, l: ListId, c: nat, full: bool, handed: set<nat>, was: map<nat, Page>, b: nat)
      requires Says(x, l, c, full, handed, was) && x.sizeClass == c
      requires (live == was && x.handed == handed)
        || (live == was[b := x] && x.handed == handed + {b} && b !in was)
        || (live == was - {b} && x.handed == handed - {b} && b in handed)
      ensures Fits(x)
    {
    }

    lemma SaidPage(x: Page, l: ListId, c: nat, full: bool, handed: set<nat>, was: map<nat, Page>)
      requires Says(x, l, c, full, handed, was) && l != Unused && x.sizeClass == c && x.inFullList == full
      requires x.ListsOk() && x.usedBlocks == |x.handed|
      ensures PageOk(x, l)
    {
      hide Placed, ClassOfSize;
    }

    /** The end of every allocation: page `x` hands out the first block of its free list, if there is one. */
    method Take(x: Page) returns (ptr: nat)
      requires Open(null) && x in loc && loc[x] != Unused
      modifies this`live, x
      ensures Open(null) && x.sizeClass == old(x.sizeClass)
      ensures if old(x.freeList) == [] then ptr == 0 && live == old(live) && unchanged(x)
              else ptr > 0 && ptr !in old(live) && live == old(live)[ptr := x] && ptr in x.Blocks()
                   && ptr == old(x.freeList)[0] && x.freeList == old(x.freeList)[1..] && x.localList == old(x.localList)
    {
      hide *;
      SaysNow(x);
      ghost var l, c, full, handed, was := loc[x], x.sizeClass, x.inFullList, x.handed, live;
      ptr := x.FreePop();
      if ptr != 0 {
        x.usedBlocks := x.usedBlocks + 1;
        live := live[ptr := x];
      }
      Said(x, l, c, full, handed, was, ptr);
      Closing(x);
    }

    /** The first part of `free`: page `x` takes block `b` back. */
    method TakeBack(x: Page, b: nat)
      requires Open(null) && x in loc && b in live && live[b] == x
      modifies this`live, x
      ensures Open(x) && PageOk(x, loc[x]) && Fits(x) && x.sizeClass == old(x.sizeClass)
      ensures loc[x] != Unused && live == old(live) - {b} && x.inFullList == old(x.inFullList)
      ensures x.inFullList == (loc[x] == Full)
      ensures x.freeList == old(x.freeList) && x.localList == [b] + old(x.localList)
      ensures x.usedBlocks == old(x.usedBlocks) - 1 && (loc[x] == Full ==> x.usedBlocks > 0)
    {
      hide *;
      InUseIfLive(x, b);
      SaysNow(x);
      ghost var l, c, full, handed, was := loc[x], x.sizeClass, x.inFullList, x.handed, live;
      x.LocalFreePush(b);
      live := live - {b};
      Said(x, l, c, full, handed, was, b);
      FlagIs(x);
    }

    lemma FlagIs(x: Page)
      requires x in loc && PageOk(x, loc[x]) && loc[x] != Unused
      ensures x.inFullList == (loc[x] == Full)
    {
    }

    lemma InUseIfLive(x: Page, b: nat)
      requires Open(null) && x in loc && b in live && live[b] == x
      ensures loc[x] != Unused && b in x.handed
    {
      assert PageOk(x, loc[x]);
    }

    // ----- pages_direct

    lemma Conjuncts(x: Page?)
      requires Open(x)
      ensures ListsOk(lists, loc) && SegmentsOk(at, loc) && PagesOk(loc, x) && CountsOk(at, loc, null)
      ensures DirectOk(direct, loc, x) && LiveOk(loc, x) && FullOk(loc, x) && |direct| == 128
    {
    }

    lemma Conjoined(x: Page?)
      requires ListsOk(lists, loc) && SegmentsOk(at, loc) && PagesOk(loc, x) && CountsOk(at, loc, null)
      requires DirectOk(direct, loc, x) && LiveOk(loc, x) && FullOk(loc, x)
      ensures Open(x)
    {
    }

    /** The entries of the class point to page `p`, the others are as before. */
    ghost predicate Redirected(was: seq<Page?>, c: nat, p: Page)
      reads this`direct
    {
      PointTo(was, direct, c, p)
    }

    static ghost predicate PointTo(was: seq<Page?>, now: seq<Page?>, c: nat, p: Page) {
      |now| == |was| == 128 && forall i :: 0 <= i < 128 ==>
        now[i] == if InPagesDirect(c) && ClassOfSize(SizeOfIndex(i)) == c then p else was[i]
    }

    /** The entries for page `x` are for class `c`. */
    static ghost predicate OnlyFor(direct: seq<Page?>, x: Page?, c: nat) {
      forall i :: 0 <= i < |direct| && direct[i] == x ==> ClassOfSize(SizeOfIndex(i)) == c
    }

    lemma FirstInList(c: nat, x: Page?)
      requires Open(x) && c < 18
      ensures Class(c) in lists
      ensures lists[Class(c)] != [] ==>
        var p := lists[Class(c)][0]; p in loc && loc[p] == Class(c) && (p != x ==> p.sizeClass == c)
    {
      if lists[Class(c)] != [] {
        var p := lists[Class(c)][0];
        Member(lists, loc, Class(c), p);
        assert p != x ==> PageOk(p, loc[p]);
      }
    }

    lemma RedirectedOk(was: seq<Page?>, c: nat, p: Page, x: Page?)
      requires DirectOk(was, loc, x) && Redirected(was, c, p) && p in loc && loc[p] == Class(c)
      requires p != x && p.sizeClass == c
      ensures DirectOk(direct, loc, x) && (AllDirect(was) ==> AllDirect(direct))
      ensures InPagesDirect(c) && x != null && OnlyFor(was, x, c) ==> x !in direct
    {
      forall i: nat | i < 128
        ensures DirectAt(direct, loc, i, x)
      {
        assert DirectAt(was, loc, i, x);
      }
    }

    /** `heap_update_pages_direct`. */
    method UpdateDirect(c: nat, ghost x: Page?)
      requires Open(x) && c < 17 && Class(c) in lists && lists[Class(c)] != [] && lists[Class(c)][0] != x
      modifies this`direct
      ensures Open(x) && Redirected(old(direct), c, lists[Class(c)][0])
      ensures (AllDirect(old(direct)) ==> AllDirect(direct))
      ensures InPagesDirect(c) && x != null && OnlyFor(old(direct), x, c) ==> x !in direct
    {
      hide *;
      Conjuncts(x);
      FirstInList(c, x);
      var p := lists[Class(c)][0];
      ghost var was := direct;
      SetEntries(c, p);
      RedirectedOk(was, c, p, x);
      Conjoined(x);
    }

    /** The loop of `heap_update_pages_direct`. */
    method SetEntries(c: nat, p: Page)
      requires |direct| == 128 && c < 17
      modifies this`direct
      ensures Redirected(old(direct), c, p)
    {
      if !InPagesDirect(c) {
        return;
      }
      IndexRange(c, 0);
      ghost var was := direct;
      for i := FirstIndex(c) to LastIndex(c) + 1
        invariant |direct| == 128
        invariant forall j :: 0 <= j < 128 ==> direct[j] == if FirstIndex(c) <= j < i then p else was[j]
      {
        direct := direct[i := p];
      }
      forall j | 0 <= j < 128
        ensures ClassOfSize(SizeOfIndex(j)) == c <==> FirstIndex(c) <= j <= LastIndex(c)
      {
        IndexRange(c, j);
      }
    }

    // ----- pages and segments are given up

    /** Page `x` is the only one of its segment that is not unused. */
    ghost predicate Alone(s: Segment, x: Page)
      reads this`loc, s`pages
    {
      && x.index < |s.pages| && s.pages[x.index] == x && (forall i :: 0 <= i < |s.pages| ==> s.pages[i].index == i)
      && (forall i :: 0 <= i < |s.pages| && i != x.index ==> s.pages[i] in loc && loc[s.pages[i]] == Unused)
    }

    /** What holds of the segment of a page. */
    lemma SegmentFacts(s: Segment, x: Page)
      requires SegmentsOk(at, loc) && CountsOk(at, loc, null) && Home(at, x) && x.segment == s
      ensures s.base in at && at[s.base] == s && SegmentOk(s) && s.usedPages == UsedCount(s.pages, loc)
      ensures x.index < |s.pages| && s.pages[x.index] == x
      ensures forall i :: 0 <= i < |s.pages| ==> s.pages[i] in loc && s.pages[i].index == i
      ensures s.shift != 16 ==> |s.pages| == 1
    {
      assert s.base in at && SegmentOk(s);
    }

    /** With one page in use, the other pages of the segment are unused. */
    lemma OthersUnused(s: Segment, x: Page)
      requires SegmentsOk(at, loc) && CountsOk(at, loc, null) && Home(at, x) && x.segment == s
      requires x in loc && loc[x] != Unused
      ensures s.usedPages > 0 && (s.shift != 16 ==> s.usedPages == 1)
      ensures s.usedPages == 1 ==> Alone(s, x)
      ensures s.base in at && at[s.base] == s && SegmentOk(s)
    {
      hide *;
      SegmentFacts(s, x);
      OwnPages(s, x);
      CountAfter(s.pages, loc, x, Unused);
      NoneUsed(s.pages, loc[x := Unused]);
      OnlyOneInUse(s, x);
    }

    lemma OnlyOneInUse(s: Segment, x: Page)
      requires x.index < |s.pages| && s.pages[x.index] == x && x in loc && loc[x] != Unused && x in s.pages
      requires forall i :: 0 <= i < |s.pages| ==> s.pages[i] in loc && s.pages[i].index == i
      requires s.shift != 16 ==> |s.pages| == 1
      requires UsedCount(s.pages, loc[x := Unused]) == s.usedPages - 1
      requires UsedCount(s.pages, loc[x := Unused]) == 0 <==> forall p :: p in s.pages ==> !InUse(loc[x := Unused], p)
      ensures s.usedPages > 0 && (s.shift != 16 ==> s.usedPages == 1)
      ensures s.usedPages == 1 ==> Alone(s, x)
    {
      hide UsedCount;
      if s.shift != 16 {
        assert forall p :: p in s.pages ==> p == x;
      }
      forall i | 0 <= i < |s.pages| && i != x.index && s.usedPages == 1
        ensures s.pages[i] in loc && loc[s.pages[i]] == Unused
      {
        assert s.pages[i] in s.pages && !InUse(loc[x := Unused], s.pages[i]);
      }
    }

    /** And with all others unused, one page is in use. */
    lemma AloneIsOne(s: Segment, x: Page)
      requires Home(at, x) && x.segment == s && x in loc && loc[x] != Unused && Alone(s, x)
      requires SegmentOk(s) && s.usedPages == UsedCount(s.pages, loc)
      ensures s.usedPages == 1
    {
      OwnPages(s, x);
      var m := loc[x := Unused];
      CountAfter(s.pages, loc, x, Unused);
      NoneUsed(s.pages, m);
      hide UsedCount, Home, SegmentOk;
      assert forall p :: p in s.pages ==> !InUse(m, p);
    }

    /** What is left when the pages of a segment are gone. */
    static function Others(m: map<Page, ListId>, s: Segment): map<Page, ListId> {
      map p | p in m && p.segment != s :: m[p]
    }

    /** The rest stays in order when segment `s` goes, of which only `x` was in use. */
    lemma SegmentGone(s: Segment, x: Page) returns (m: map<Page, ListId>)
      requires Open(x) && Home(at, x) && x.segment == s && x !in direct && (forall b :: b in live ==> live[b] != x)
      requires Alone(s, x)
      ensures m == Others(loc, s) && SegmentsOk(at - {s.base}, m) && CountsOk(at - {s.base}, m, null)
      ensures PagesOk(m, null) && DirectOk(direct, m, null) && LiveOk(m, null) && FullOk(m, null)
    {
      m := Others(loc, s);
      var a := at - {s.base};
      forall p | p in loc && p.segment == s
        ensures p == x || loc[p] == Unused
      {
        assert Home(at, p);
      }
      GoneSegments(s, m, a);
      GoneCounts(s, m, a);
      GoneStates(s, m, x);
    }

    lemma GoneSegments(s: Segment, m: map<Page, ListId>, a: map<nat, Segment>)
      requires SegmentsOk(at, loc) && s.base in at && at[s.base] == s && m == Others(loc, s) && a == at - {s.base}
      ensures SegmentsOk(a, m)
    {
      forall p | p in m
        ensures Home(a, p)
      {
        assert Home(at, p);
      }
    }

    lemma GoneCounts(s: Segment, m: map<Page, ListId>, a: map<nat, Segment>)
      requires SegmentsOk(at, loc) && CountsOk(at, loc, null) && s.base in at && at[s.base] == s
      requires m == Others(loc, s) && a == at - {s.base}
      ensures CountsOk(a, m, null)
    {
      forall b | b in a
        ensures a[b].usedPages == UsedCount(a[b].pages, m)
      {
        assert SegmentOk(at[b]) && at[b].base == b;
        SameCount(at[b].pages, loc, m);
      }
    }

    lemma GoneStates(s: Segment, m: map<Page, ListId>, x: Page)
      requires PagesOk(loc, x) && DirectOk(direct, loc, x) && LiveOk(loc, x) && FullOk(loc, x)
      requires m == Others(loc, s) && x.segment == s && x !in direct && (forall b :: b in live ==> live[b] != x)
      requires forall p :: p in loc && p.segment == s ==> p == x || loc[p] == Unused
      ensures PagesOk(m, null) && DirectOk(direct, m, null) && LiveOk(m, null) && FullOk(m, null)
    {
      forall i: nat | i < 128
        ensures DirectAt(direct, m, i, null)
      {
        assert DirectAt(direct, loc, i, x);
      }
      forall b | b in live
        ensures live[b] in m
      {
        assert PageOk(live[b], loc[live[b]]);
      }
    }

    /** `list_remove` of an unused page. */
    method UnlinkUnused(page: Page)
      requires ListsOk(lists, loc) && page in loc && loc[page] == Unused
      modifies this`lists, this`loc
      ensures ListsOk(lists, loc) && loc == old(loc)[page := Nowhere]
      ensures forall l :: l in old(lists) && l != Unused ==> l in lists && lists[l] == old(lists)[l]
    {
      UnlinkedOk(lists, loc, page);
      hide ListsOk;
      lists := Unlinked(lists, loc[page], page);
      loc := loc[page := Nowhere];
    }

    /** The loop of `segment_free`: exactly one page of the segment is in no list; the others leave theirs. */
    method UnlinkAll(s: Segment, ghost x: Page)
      requires ListsOk(lists, loc) && Alone(s, x) && x in loc && loc[x] == Nowhere
      modifies this`lists, this`loc
      ensures ListsOk(lists, loc) && loc.Keys == old(loc).Keys
      ensures forall p :: p in loc ==> loc[p] == if p in s.pages then Nowhere else old(loc)[p]
      ensures forall l :: l in old(lists) && l != Unused ==> l in lists && lists[l] == old(lists)[l]
    {
      hide ListsOk;
      var foundUnlinkedPage := false;
      for i := 0 to |s.pages|
        invariant ListsOk(lists, loc) && loc.Keys == old(loc).Keys && foundUnlinkedPage == (x.index < i)
        invariant forall p :: p in loc ==> loc[p] == if p in s.pages[..i] then Nowhere else old(loc)[p]
        invariant forall l :: l in old(lists) && l != Unused ==> l in lists && lists[l] == old(lists)[l]
      {
        var page := s.pages[i];
        assert s.pages[..i + 1] == s.pages[..i] + [page];
        assert page !in s.pages[..i];
        if loc[page] == Nowhere {
          assert !foundUnlinkedPage;
          foundUnlinkedPage := true;
        } else {
          UnlinkUnused(page);
        }
      }
      assert foundUnlinkedPage;
      assert s.pages[..|s.pages|] == s.pages;
    }

    lemma PagesOf(s: Segment)
      requires SegmentsOk(at, loc) && s.base in at && at[s.base] == s
      ensures forall i :: 0 <= i < |s.pages| ==> s.pages[i].index == i
      ensures forall p :: p in loc ==> (p.segment == s <==> p in s.pages)
    {
      forall p | p in loc
        ensures p.segment == s <==> p in s.pages
      {
        assert Home(at, p) && SegmentOk(s);
      }
    }

    lemma UnlinkedAll(m0: map<Page, ListId>, m: map<Page, ListId>, s: Segment)
      requires loc.Keys == m0.Keys && forall p :: p in loc ==> loc[p] == if p in s.pages then Nowhere else m0[p]
      requires forall p :: p in m0 ==> (p.segment == s <==> p in s.pages)
      requires ListsOk(lists, loc) && m == Others(m0, s)
      ensures ListsOk(lists, m) && Others(loc, s) == m
    {
      assert Others(loc, s) == m;
    }

    /** Before `segment_free`: what its loop needs, and what will be left. */
    lemma LastInUse(s: Segment, x: Page) returns (m: map<Page, ListId>)
      requires Open(x) && x in loc && loc[x] == Nowhere && Home(at, x) && x.segment == s && s.usedPages == 1
      requires x !in direct && (forall b :: b in live ==> live[b] != x)
      ensures ListsOk(lists, loc) && Alone(s, x) && s !in (at - {s.base}).Values
      ensures forall p :: p in loc ==> (p.segment == s <==> p in s.pages)
      ensures m == Others(loc, s) && SegmentsOk(at - {s.base}, m) && CountsOk(at - {s.base}, m, null)
      ensures PagesOk(m, null) && DirectOk(direct, m, null) && LiveOk(m, null) && FullOk(m, null)
    {
      hide *;
      Conjuncts(x);
      OthersUnused(s, x);
      m := SegmentGone(s, x);
      PagesOf(s);
      OneHeader(s);
    }

    lemma OneHeader(s: Segment)
      requires SegmentsOk(at, loc) && s.base in at && at[s.base] == s
      ensures s !in (at - {s.base}).Values
    {
    }

    /** `segment_free`, up to the unmapping of its memory. */
    method SegmentFree(s: Segment, ghost x: Page)
      requires Open(x) && x in loc && loc[x] == Nowhere && Home(at, x) && x.segment == s && s.usedPages == 1
      requires x !in direct && (forall b :: b in live ==> live[b] != x)
      modifies this`lists, this`loc, this`at, s`usedPages
      ensures Open(null) && at == old(at) - {s.base} && loc == Others(old(loc), s)
      ensures forall l :: l in old(lists) && l != Unused ==> l in lists && lists[l] == old(lists)[l]
    {
      hide *;
      ghost var m0 := loc;
      ghost var m := LastInUse(s, x);
      UnlinkAll(s, x);
      UnlinkedAll(m0, m, s);
      s.usedPages := 0;
      at := at - {s.base};
      loc := Others(loc, s);
      Conjoined(null);
    }

    /** What holds of a page of which no block is handed out. */
    lemma EmptyPage(x: Page)
      requires Open(x) && x in loc && PageOk(x, loc[x]) && Fits(x) && loc[x].Class? && x.usedBlocks == 0
      ensures loc[x] == Class(x.sizeClass) && x.handed == {} && (forall b :: b in live ==> live[b] != x) && Home(at, x)
      ensures x.sizeClass < 18 && (ClassIsValid(x.sizeClass) ==> x.sizeClass < 17)
      ensures OnlyFor(direct, x, x.sizeClass)
      ensures !(ClassIsValid(x.sizeClass) && InPagesDirect(x.sizeClass)) ==> x !in direct
      ensures Class(x.sizeClass) in lists && lists[Class(x.sizeClass)] != []
      ensures |lists[Class(x.sizeClass)]| > 1 ==> Without(lists[Class(x.sizeClass)], x) != []
    {
      EmptyIs(x);
      EmptyDirect(x);
      Conjuncts(x);
      hide *;
      ListExists(x);
      Member(lists, loc, loc[x], x);
      Sole(lists, loc, loc[x], x);
    }

    lemma EmptyIs(x: Page)
      requires SegmentsOk(at, loc) && x in loc && PageOk(x, loc[x]) && Fits(x) && loc[x].Class? && x.usedBlocks == 0
      ensures loc[x] == Class(x.sizeClass) && x.handed == {} && (forall b :: b in live ==> live[b] != x) && Home(at, x)
      ensures x.sizeClass < 18 && (ClassIsValid(x.sizeClass) ==> x.sizeClass < 17) && OnlyFor(direct, x, x.sizeClass)
    {
    }

    lemma EmptyDirect(x: Page)
      requires Fits(x) && |direct| == 128
      ensures !(ClassIsValid(x.sizeClass) && InPagesDirect(x.sizeClass)) ==> x !in direct
    {
      forall i | 0 <= i < |direct| && direct[i] == x
        ensures InPagesDirect(x.sizeClass) && ClassIsValid(x.sizeClass)
      {
        DirectIndexClass(SizeOfIndex(i));
      }
    }

    lemma ListExists(x: Page)
      requires ListsOk(lists, loc) && x in loc && loc[x] != Nowhere
      ensures loc[x] in lists
    {
    }

    lemma UnlinkedIs(l0: map<ListId, seq<Page>>, l: ListId, x: Page)
      requires l in l0
      ensures l in Unlinked(l0, l, x) && Unlinked(l0, l, x)[l] == Without(l0[l], x)
      ensures forall k :: k in l0 && k != l ==> k in Unlinked(l0, l, x) && Unlinked(l0, l, x)[k] == l0[k]
    {
    }

    lemma ListsExist()
      requires Open(null) || exists x :: x in loc && Open(x)
      ensures Unused.Exists() && Full.Exists() && (forall c: nat :: c < 18 ==> Class(c).Exists())
      ensures forall l: ListId :: l.Exists() ==> l in lists
    {
    }

    lemma SegmentInUse(x: Page)
      requires Open(x) && x in loc && loc[x] == Nowhere && Home(at, x)
      ensures x.segment.usedPages > 0 && (x.segment.usedPages > 1 ==> x.segment.shift == 16)
    {
      OthersUnused(x.segment, x);
    }

    lemma NowUnused(x: Page)
      requires x.segment.shift == 16 && x.handed == {} && x !in direct && (forall b :: b in live ==> live[b] != x)
      ensures PageOk(x, Unused) && Fits(x)
    {
    }

    /** No page of the segment but `x` is in use. */
    static ghost predicate LastOfSegment(m: map<Page, ListId>, x: Page) {
      forall p :: p in m && p.segment == x.segment ==> p == x || m[p] == Unused
    }

    /** The pages after page `x` was given up: `x` is unused, or its segment is gone. */
    static ghost function AfterRetired(m: map<Page, ListId>, x: Page): map<Page, ListId> {
      if LastOfSegment(m, x) then Others(m, x.segment) else m[x := Unused]
    }

    static ghost function SegmentsAfter(at: map<nat, Segment>, m: map<Page, ListId>, x: Page): map<nat, Segment> {
      if LastOfSegment(m, x) then at - {x.segment.base} else at
    }

    lemma LastIffOne(x: Page)
      requires Open(x) && x in loc && loc[x] == Nowhere && Home(at, x)
      ensures x.segment.usedPages == 1 <==> LastOfSegment(loc, x)
    {
      OthersUnused(x.segment, x);
      PagesOf(x.segment);
      if LastOfSegment(loc, x) {
        var s := x.segment;
        forall i | 0 <= i < |s.pages| && i != x.index
          ensures s.pages[i] in loc && loc[s.pages[i]] == Unused
        {
          assert s.pages[i].index == i;
        }
        assert s.base in at && at[s.base] == s;
        AloneIsOne(s, x);
      }
    }

    lemma SameRetired(m: map<Page, ListId>, at: map<nat, Segment>, x: Page)
      requires x in m
      ensures AfterRetired(m[x := Nowhere], x) == AfterRetired(m, x)
      ensures SegmentsAfter(at, m[x := Nowhere], x) == SegmentsAfter(at, m, x)
    {
    }

    lemma RetiredIs(m: map<Page, ListId>, at: map<nat, Segment>, x: Page)
      ensures LastOfSegment(m, x) ==>
        AfterRetired(m, x) == Others(m, x.segment) && SegmentsAfter(at, m, x) == at - {x.segment.base}
      ensures !LastOfSegment(m, x) ==> AfterRetired(m, x) == m[x := Unused] && SegmentsAfter(at, m, x) == at
    {
    }

    /** Nothing but the unused pages and page `x` has changed places. */
    static ghost predicate OnlyRetired(m0: map<Page, ListId>, m: map<Page, ListId>, l0: map<ListId, seq<Page>>,
                                       l: map<ListId, seq<Page>>, x: Page) {
      && (forall k :: k in l0 && k != Unused ==> k in l && l[k] == l0[k])
      && (forall p :: p in m0 && p != x && m0[p] != Unused ==> p in m && m[p] == m0[p])
      && m.Keys <= m0.Keys && (x in m ==> m[x] == Unused)
    }

    static ghost predicate Subset(a: map<nat, Segment>, b: map<nat, Segment>) {
      forall k :: k in a ==> k in b && a[k] == b[k]
    }

    /** And page `x` was in the list of class `c`. */
    static ghost predicate OnlyLeft(m0: map<Page, ListId>, m: map<Page, ListId>, l0: map<ListId, seq<Page>>,
                                    l: map<ListId, seq<Page>>, x: Page, c: nat) {
      && (forall k :: k in l0 && k != Class(c) && k != Unused ==> k in l && l[k] == l0[k])
      && (forall p :: p in m0 && p != x && m0[p] != Unused ==> p in m && m[p] == m0[p])
      && m.Keys <= m0.Keys && (x in m ==> m[x] == Unused)
      && Class(c) in l && Class(c) in l0 && l[Class(c)] == Without(l0[Class(c)], x)
    }

    /** Segment `base` of `size` bytes is new; of the others, none is. */
    static ghost predicate Gained(a: map<nat, Segment>, b: map<nat, Segment>, base: nat, size: nat) {
      base !in a && base in b && b[base].base == base && b[base].size == size && Subset(b - {base}, a)
    }

    lemma SubsetOf(a: map<nat, Segment>, b: nat)
      ensures Subset(a, a) && Subset(a - {b}, a)
    {
    }

    lemma LeftIfRetired(m0: map<Page, ListId>, l0: map<ListId, seq<Page>>, x: Page, c: nat)
      requires Class(c) in l0 && x in m0 && OnlyRetired(m0[x := Nowhere], loc, Unlinked(l0, Class(c), x), lists, x)
      ensures OnlyLeft(m0, loc, l0, lists, x, c)
    {
    }

    lemma RetiredUnused(m1: map<Page, ListId>, l1: map<ListId, seq<Page>>, x: Page)
      requires x in m1 && loc == m1[x := Unused] && Unused in l1 && lists == LinkedAtEnd(l1, Unused, x)
      ensures OnlyRetired(m1, loc, l1, lists, x)
    {
    }

    lemma RetiredForGood(m1: map<Page, ListId>, l1: map<ListId, seq<Page>>, x: Page)
      requires x in m1 && loc == Others(m1, x.segment)
      requires forall l :: l in l1 && l != Unused ==> l in lists && lists[l] == l1[l]
      requires forall p :: p in m1 && p.segment == x.segment ==> p == x || m1[p] == Unused
      ensures OnlyRetired(m1, loc, l1, lists, x)
    {
    }

    lemma OthersAreUnused(x: Page)
      requires Open(x) && x in loc && loc[x] == Nowhere && Home(at, x) && x.segment.usedPages == 1
      ensures forall p :: p in loc && p.segment == x.segment ==> p == x || loc[p] == Unused
    {
      OthersUnused(x.segment, x);
      PagesOf(x.segment);
    }

    /** The second half of `page_free`: page `x`, in no list any more, is unused, or its segment goes. */
    method Retire(x: Page)
      requires Open(x) && x in loc && loc[x] == Nowhere && Home(at, x) && x !in direct && x.handed == {}
      requires forall b :: b in live ==> live[b] != x
      modifies this`lists, this`loc, this`at, x, x.segment`usedPages
      ensures Open(null) && OnlyRetired(old(loc), loc, old(lists), lists, x) && Subset(at, old(at))
      ensures loc == AfterRetired(old(loc), x) && at == SegmentsAfter(old(at), old(loc), x)
    {
      hide *;
      ghost var m1, l1, a0 := loc, lists, at;
      ListsExist();
      SegmentInUse(x);
      LastIffOne(x);
      RetiredIs(loc, at, x);
      if x.segment.usedPages > 1 {
        x.Clear();
        Link(x, Unused);
        NowUnused(x);
        Closing(x);
        RetiredUnused(m1, l1, x);
        SubsetOf(at, 0);
      } else {
        OthersAreUnused(x);
        SegmentFree(x.segment, x);
        RetiredForGood(m1, l1, x);
        SubsetOf(a0, x.segment.base);
      }
    }

    /**
      `page_free`: an empty page leaves its list, unless `pages_direct` needs it and its class has no other
      in the list; when no page of its segment is left in use, the segment goes too.
     */
    method PageFree(x: Page)
      requires Open(x) && x in loc && PageOk(x, loc[x]) && Fits(x) && loc[x].Class? && x.usedBlocks == 0
      modifies this`lists, this`loc, this`direct, this`at, x, x.segment`usedPages
      ensures Open(null) && (AllDirect(old(direct)) ==> AllDirect(direct))
      ensures Class(old(x.sizeClass)) in old(lists) && Subset(at, old(at))
      ensures var c := old(x.sizeClass);
        if ClassIsValid(c) && InPagesDirect(c) && |old(lists)[Class(c)]| == 1
        then unchanged(x) && lists == old(lists) && loc == old(loc) && direct == old(direct) && at == old(at)
        else
          && OnlyLeft(old(loc), loc, old(lists), lists, x, c)
          && loc == AfterRetired(old(loc), x) && at == SegmentsAfter(old(at), old(loc), x)
          && (if ClassIsValid(c) && InPagesDirect(c)
              then lists[Class(c)] != [] && Redirected(old(direct), c, lists[Class(c)][0])
              else direct == old(direct))
    {
      hide *;
      var c := x.sizeClass;
      ghost var m0, l0 := loc, lists;
      EmptyPage(x);
      if ClassIsValid(c) && InPagesDirect(c) {
        if |lists[loc[x]]| == 1 {
          Closing(x);
          SubsetOf(at, 0);
          return;
        }
        Unlink(x);
        UnlinkedIs(l0, Class(c), x);
        FirstInList(c, x);
        UpdateDirect(c, x);
      } else {
        Unlink(x);
      }
      SameRetired(m0, at, x);
      Retire(x);
      LeftIfRetired(m0, l0, x, c);
    }

    // ----- free

    lemma OwnerFound(ptr: nat)
      requires Open(null) && ptr in live
      ensures HasPage(ptr) && PageAt(ptr) == live[ptr] && live[ptr] in loc && Home(at, live[ptr])
    {
      var x := live[ptr];
      Opening(x);
      OkPlaced(x, loc[x]);
      Found(x, ptr);
    }

    lemma BackIn(x: Page)
      requires PageOk(x, Full) && Fits(x)
      ensures x.sizeClass < 17 && Class(x.sizeClass).Exists() && x.Valid()
      ensures Placed(x.segment.shift, x.index, x.sizeClass)
    {
    }

    lemma BackOk(x: Page)
      requires x.Valid() && !x.inFullList && Placed(x.segment.shift, x.index, x.sizeClass)
      ensures PageOk(x, Class(x.sizeClass))
    {
    }

    /** A page goes from the full list back to that of its class. */
    method Unfull(x: Page)
      requires Open(x) && x in loc && loc[x] == Full && PageOk(x, Full) && Fits(x) && Home(at, x)
      modifies this`lists, this`loc, x`inFullList, x.segment`usedPages
      ensures Open(null) && loc == old(loc)[x := Class(x.sizeClass)]
      ensures Full in old(lists) && Class(x.sizeClass) in Unlinked(old(lists), Full, x)
      ensures lists == LinkedAtEnd(Unlinked(old(lists), Full, x), Class(x.sizeClass), x)
    {
      hide *;
      BackIn(x);
      Unlink(x);
      Link(x, Class(x.sizeClass));
      x.inFullList := false;
      BackOk(x);
      Closing(x);
    }

    lemma ValidParts()
      requires Valid()
      ensures Open(null) && AllDirect(direct)
    {
    }

    lemma WholeAgain()
      requires Open(null) && AllDirect(direct)
      ensures Valid()
    {
    }

    /**
      Page `x` of class `c`, the last block of which came back, was given up: it is unused if another page of its
      segment is in use, and otherwise the segment and all its pages are gone. It leaves the list of its class, and
      all other lists, pages and segments are as they were.
     */
    static ghost predicate GivenUp(m0: map<Page, ListId>, m: map<Page, ListId>, at0: map<nat, Segment>,
                                   at1: map<nat, Segment>, l0: map<ListId, seq<Page>>, l1: map<ListId, seq<Page>>,
                                   x: Page, c: nat) {
      var kept := exists p :: p in m0 && p != x && p.segment == x.segment && m0[p] != Unused;
      && (x.segment.base in at1 <==> kept) && (x in m <==> kept) && (x in m ==> m[x] == Unused)
      && (forall p :: p in m0 && p != x ==> (p in m <==> kept || p.segment != x.segment) && (p in m ==> m[p] == m0[p]))
      && m.Keys <= m0.Keys
      && (forall b :: b in at1 <==> b in at0 && (kept || b != x.segment.base))
      && (forall b :: b in at1 ==> at1[b] == at0[b])
      && (forall l :: l in l0 && l != Class(c) && l != Unused ==> l in l1 && l1[l] == l0[l])
      && Class(c) in l0 && Class(c) in l1 && l1[Class(c)] == Without(l0[Class(c)], x) && x !in l1[Class(c)]
    }

    /** Page `x` goes from the full list to the end of the list of class `c`. */
    static ghost predicate FullNoMore(m0: map<Page, ListId>, m: map<Page, ListId>, l0: map<ListId, seq<Page>>,
                                      l1: map<ListId, seq<Page>>, x: Page, c: nat) {
      && m == m0[x := Class(c)] && Full in l0 && Class(c) in l0
      && l1 == l0[Full := Without(l0[Full], x)][Class(c) := l0[Class(c)] + [x]]
    }

    /** What `free` does with page `x` of class `c`, of which `used` blocks were handed out. */
    static ghost predicate Settled(m0: map<Page, ListId>, m: map<Page, ListId>, at0: map<nat, Segment>,
                                   at1: map<nat, Segment>, l0: map<ListId, seq<Page>>, l1: map<ListId, seq<Page>>,
                                   d0: seq<Page?>, d1: seq<Page?>, x: Page, c: nat, used: nat) {
      var inDirect := ClassIsValid(c) && InPagesDirect(c);
      if used > 1 && x in m0 && m0[x] == Full then
        FullNoMore(m0, m, l0, l1, x, c) && at1 == at0 && d1 == d0
      else if used > 1 || (inDirect && Class(c) in l0 && |l0[Class(c)]| == 1) then
        m == m0 && at1 == at0 && l1 == l0 && d1 == d0
      else
        && GivenUp(m0, m, at0, at1, l0, l1, x, c)
        && (if inDirect then l1[Class(c)] != [] && PointTo(d0, d1, c, l1[Class(c)][0]) else d1 == d0)
    }

    lemma IsGivenUp(m0: map<Page, ListId>, at0: map<nat, Segment>, l0: map<ListId, seq<Page>>, x: Page, c: nat)
      requires x in m0 && x.segment.base in at0 && Class(c) in l0
      requires OnlyLeft(m0, loc, l0, lists, x, c) && forall l :: l in lists && l != Unused ==> x !in lists[l]
      requires loc == AfterRetired(m0, x) && at == SegmentsAfter(at0, m0, x)
      ensures GivenUp(m0, loc, at0, at, l0, lists, x, c)
    {
      assert LastOfSegment(m0, x) <==> !(exists p :: p in m0 && p != x && p.segment == x.segment && m0[p] != Unused);
    }

    lemma ListsAreOk(x: Page?, y: Page)
      requires Open(x) && (y in loc ==> loc[y] == Unused)
      ensures forall l :: l in lists && l != Unused ==> y !in lists[l]
    {
      forall l | l in lists && l != Unused
        ensures y !in lists[l]
      {
        if y in lists[l] {
          Member(lists, loc, l, y);
        }
      }
    }

    /** The end of `free`, when no block of page `x` is handed out any more. */
    method Empty(x: Page)
      requires Open(x) && x in loc && PageOk(x, loc[x]) && Fits(x) && loc[x] == Class(x.sizeClass) && x.usedBlocks == 0
      modifies this`lists, this`loc, this`direct, this`at, x, x.segment`usedPages
      ensures Open(null) && (AllDirect(old(direct)) ==> AllDirect(direct))
      ensures Settled(old(loc), loc, old(at), at, old(lists), lists, old(direct), direct, x, old(x.sizeClass), 1)
      ensures x in loc && loc[x].Class? ==> unchanged(x)
    {
      hide *;
      ghost var m0, at0, l0, d0, c := loc, at, lists, direct, x.sizeClass;
      EmptyPage(x);
      HomeIn(x);
      PageFree(x);
      if !(ClassIsValid(c) && InPagesDirect(c) && |l0[Class(c)]| == 1) {
        OnlyLeftIs(m0, l0, x, c);
        ListsAreOk(null, x);
        IsGivenUp(m0, at0, l0, x, c);
      }
      IsSettled(m0, at0, l0, d0, x, c);
    }

    lemma HomeIn(x: Page)
      requires Home(at, x)
      ensures x.segment.base in at
    {
    }

    lemma OnlyLeftIs(m0: map<Page, ListId>, l0: map<ListId, seq<Page>>, x: Page, c: nat)
      requires OnlyLeft(m0, loc, l0, lists, x, c)
      ensures x in loc ==> loc[x] == Unused
    {
    }

    lemma IsSettled(m0: map<Page, ListId>, at0: map<nat, Segment>, l0: map<ListId, seq<Page>>, d0: seq<Page?>, x: Page,
                    c: nat)
      requires Class(c) in l0 && (x in m0 && m0[x] != Full)
      requires
        if ClassIsValid(c) && InPagesDirect(c) && |l0[Class(c)]| == 1
        then loc == m0 && at == at0 && lists == l0 && direct == d0
        else (
          && GivenUp(m0, loc, at0, at, l0, lists, x, c)
          && (if ClassIsValid(c) && InPagesDirect(c)
              then Class(c) in lists && lists[Class(c)] != [] && Redirected(d0, c, lists[Class(c)][0])
              else direct == d0))
      ensures Settled(m0, loc, at0, at, l0, lists, d0, direct, x, c, 1)
    {
    }

    lemma SettledInUse(m0: map<Page, ListId>, l0: map<ListId, seq<Page>>, x: Page, c: nat, used: nat)
      requires x in m0 && used > 1
      requires
        if m0[x] == Full
        then
          && Full in l0 && Class(c) in Unlinked(l0, Full, x) && loc == m0[x := Class(c)]
          && lists == LinkedAtEnd(Unlinked(l0, Full, x), Class(c), x)
        else loc == m0 && lists == l0
      ensures Settled(m0, loc, at, at, l0, lists, direct, direct, x, c, used)
    {
    }

    /** A page that `pages_direct` needs stays when it is the only one of its class. */
    lemma StaysIfAlone(m0: map<Page, ListId>, at0: map<nat, Segment>, l0: map<ListId, seq<Page>>, d0: seq<Page?>,
                       x: Page, c: nat, used: nat)
      requires Settled(m0, loc, at0, at, l0, lists, d0, direct, x, c, used) && x in m0 && m0[x] != Full
      requires ClassIsValid(c) && InPagesDirect(c) && Class(c) in l0 && |l0[Class(c)]| == 1
      ensures loc == m0 && at == at0 && lists == l0 && direct == d0
    {
    }

    /**
      `free`, on the hart that the heap belongs to: the block at `ptr`, and nothing else, is handed out no longer,
      and no page but its own is touched. It goes to the local list of its page. What becomes of the page is said by
      `Settled`: one that was full goes back to the end of the list of its class, and any other stays there, if other
      blocks of it are in use; an empty one stays if `pages_direct` needs it and has no other, and otherwise it is
      given up, with its segment if no other page of that is in use.
     */
    method Free(ptr: nat)
      requires Valid() && (ptr == 0 || ptr in live)
      modifies this, loc.Keys, at.Values
      ensures Valid() && live == old(live) - {ptr}
      ensures ptr == 0 ==> unchanged(this)
      ensures forall p :: p in old(loc) && (ptr in old(live) ==> p != old(live[ptr])) ==> unchanged(p)
      ensures ptr in old(live) ==> var x := old(live[ptr]);
        Settled(old(loc), loc, old(at), at, old(lists), lists, old(direct), direct, x, old(live[ptr].sizeClass),
                old(live[ptr].usedBlocks))
      ensures ptr in old(live) ==> var x := old(live[ptr]);
        (exists b :: b in live && live[b] == x) ==> x in loc && loc[x] == Class(x.sizeClass)
      ensures ptr in old(live) && old(live[ptr]) in loc && loc[old(live[ptr])].Class? ==> var x := old(live[ptr]);
        x.freeList == old(live[ptr].freeList) && x.localList == [ptr] + old(live[ptr].localList)
    {
      hide *;
      ValidParts();
      ZeroIsNoBlock();
      if ptr == 0 {
        return;
      }
      OwnerFound(ptr);
      var page := PageAt(ptr);
      OwnSegment(page);
      ghost var m0, l0, c, used := loc, lists, page.sizeClass, page.usedBlocks;
      TakeBack(page, ptr);
      if page.usedBlocks == 0 {
        ClassUnlessFull(page);
        EmptyPage(page);
        Empty(page);
      } else if page.inFullList {
        Unfull(page);
        SettledInUse(m0, l0, page, c, used);
      } else {
        ClassUnlessFull(page);
        Closing(page);
        SettledInUse(m0, l0, page, c, used);
      }
      WholeAgain();
    }

    lemma ClassUnlessFull(x: Page)
      requires x in loc && PageOk(x, loc[x]) && loc[x] != Full && loc[x] != Unused
      ensures loc[x] == Class(x.sizeClass)
    {
    }

    lemma OwnSegment(x: Page)
      requires Home(at, x)
      ensures x.segment in at.Values
    {
    }

    lemma ZeroIsNoBlock()
      requires Open(null)
      ensures 0 !in live
    {
      if 0 in live {
        InUseIfLive(live[0], 0);
        SaysNow(live[0]);
      }
    }

    // ----- the search for a page with a free block

    /** A page with blocks in use and blocks to allocate. */
    static ghost predicate Usable(x: Page)
      reads x
    {
      x.usedBlocks > 0 && (x.freeList != [] || x.localList != [])
    }

    /** The blocks that a page has to allocate after `page_collect`. */
    static ghost function Collected(x: Page): seq<nat>
      reads x
    {
      if x.freeList != [] then x.freeList else x.localList
    }

    /** `page_collect` on a page of the heap. */
    method CollectPage(x: Page)
      requires Open(null) && x in loc && loc[x] != Unused
      modifies x
      ensures Open(null) && x.usedBlocks == old(x.usedBlocks) && x.sizeClass == old(x.sizeClass)
      ensures if old(x.freeList) != [] then x.freeList == old(x.freeList) && x.localList == old(x.localList)
              else x.freeList == old(x.localList) && x.localList == []
    {
      hide *;
      SaysNow(x);
      ghost var l, c, full, handed, was := loc[x], x.sizeClass, x.inFullList, x.handed, live;
      x.Collect();
      Said(x, l, c, full, handed, was, 0);
      Closing(x);
    }

    lemma FullPage(x: Page)
      requires x in loc && PageOk(x, loc[x]) && loc[x].Class? && loc[x].c < 17
      ensures x.Valid() && Placed(x.segment.shift, x.index, x.sizeClass) && ClassIsValid(x.sizeClass)
    {
    }

    lemma FullOkNow(x: Page)
      requires x.Valid() && x.inFullList && ClassIsValid(x.sizeClass) && Placed(x.segment.shift, x.index, x.sizeClass)
      ensures PageOk(x, Full)
    {
    }

    /** A page without a block to allocate goes to the full list. */
    method MoveToFull(x: Page)
      requires Open(null) && x in loc && loc[x].Class? && loc[x].c < 17 && x.freeList == [] && x.localList == []
      modifies this`lists, this`loc, x`inFullList, x.segment`usedPages
      ensures Open(null) && loc == old(loc)[x := Full]
      ensures old(loc)[x] in old(lists) && Full in Unlinked(old(lists), old(loc)[x], x)
      ensures lists == LinkedAtEnd(Unlinked(old(lists), old(loc)[x], x), Full, x)
    {
      hide *;
      Opening(x);
      ListsExist();
      FullPage(x);
      Unlink(x);
      Link(x, Full);
      x.inFullList := true;
      FullOkNow(x);
      Closing(x);
    }

    /** What the list of class `c` is, in so far as the search has not come to it yet. */
    ghost predicate Ahead(c: nat, rest: seq<Page>)
      reads this`lists, this`loc
    {
      Class(c) in lists && lists[Class(c)] == rest && forall j :: 0 <= j < |rest| ==>
        rest[j] in loc && loc[rest[j]] == Class(c)
    }

    lemma AheadIs(c: nat)
      requires Open(null) && c < 18
      ensures Class(c) in lists && Ahead(c, lists[Class(c)]) && Distinct(lists[Class(c)])
    {
      ListOnce(lists, loc, Class(c));
    }

    lemma AheadFirst(c: nat, rest: seq<Page>)
      requires Open(null) && Ahead(c, rest) && rest != [] && c < 17
      ensures var x := rest[0];
        && x in loc && loc[x] == Class(c) && Class(c) in lists && x.sizeClass == c && lists[Class(c)] == rest
        && (x.usedBlocks == 0 ==> x.handed == {}) && Home(at, x) && ClassIsValid(c)
    {
      Opening(rest[0]);
    }

    lemma AheadAfter(c: nat, rest: seq<Page>, m0: map<Page, ListId>, l0: map<ListId, seq<Page>>)
      requires rest != [] && Distinct(rest) && Class(c) in l0 && l0[Class(c)] == rest
      requires forall j :: 0 <= j < |rest| ==> rest[j] in m0 && m0[rest[j]] == Class(c)
      requires OnlyLeft(m0, loc, l0, lists, rest[0], c)
        || (loc == m0[rest[0] := Full] && Full in Unlinked(l0, Class(c), rest[0])
            && lists == LinkedAtEnd(Unlinked(l0, Class(c), rest[0]), Full, rest[0]))
      ensures Ahead(c, rest[1..]) && loc.Keys <= m0.Keys
    {
      assert Without(rest, rest[0]) == rest[1..];
    }

    lemma AheadAgain(c: nat, rest: seq<Page>)
      requires Class(c) in lists && lists[Class(c)] == rest
      requires forall j :: 0 <= j < |rest| ==> rest[j] in loc && loc[rest[j]] == Class(c)
      ensures Ahead(c, rest)
    {
    }

    lemma AheadWas(c: nat, rest: seq<Page>)
      requires Ahead(c, rest)
      ensures Class(c) in lists && lists[Class(c)] == rest
      ensures forall j :: 0 <= j < |rest| ==> rest[j] in loc && loc[rest[j]] == Class(c)
    {
    }

    lemma SaysUsable(x: Page, used: nat, free: seq<nat>, local: seq<nat>)
      requires used == x.usedBlocks && free == x.freeList && local == x.localList
      ensures Usable(x) <==> used > 0 && (free != [] || local != [])
    {
    }

    lemma CollectedIs(x: Page)
      ensures Collected(x) == if x.freeList != [] then x.freeList else x.localList
    {
    }

    /** One round of the loop in `alloc_generic`, on the first page of what is ahead. */
    method TryFirst(c: nat, ghost rest: seq<Page>, x: Page) returns (found: bool, stays: bool)
      requires Open(null) && AllDirect(direct) && c < 17 && Ahead(c, rest) && Distinct(rest) && rest != []
      requires x == rest[0]
      modifies this`lists, this`loc, this`direct, this`at, x, x.segment`usedPages
      ensures Open(null) && AllDirect(direct) && Subset(at, old(at)) && loc.Keys <= old(loc).Keys
      ensures found == old(Usable(x))
      ensures found ==> x.freeList != [] && Ahead(c, rest) && x.freeList == old(Collected(x))
      ensures stays == (InPagesDirect(c) && |rest| == 1 && old(x.usedBlocks) == 0)
      ensures stays ==> Ahead(c, rest)
      ensures !found && !stays ==> Ahead(c, rest[1..])
      ensures loc == if found || stays then old(loc)
                     else if old(x.usedBlocks) == 0 then AfterRetired(old(loc), x)
                     else old(loc)[x := Full]
    {
      hide *;
      ghost var m0, l0 := loc, lists;
      AheadFirst(c, rest);
      AheadWas(c, rest);
      SaysUsable(x, x.usedBlocks, x.freeList, x.localList);
      CollectedIs(x);
      SubsetOf(at, 0);
      found, stays := false, false;
      if x.usedBlocks == 0 {
        var n := |lists[loc[x]]|;
        Opening(x);
        PageFree(x);
        stays := InPagesDirect(c) && n == 1;
        if stays {
          AheadAgain(c, rest);
        } else {
          AheadAfter(c, rest, m0, l0);
        }
        return;
      }
      CollectPage(x);
      OkHere(x);
      var full := x.IsFull();
      if !full {
        found := true;
        AheadAgain(c, rest);
        return;
      }
      MoveToFull(x);
      AheadAfter(c, rest, m0, l0);
    }

    lemma OkHere(x: Page)
      requires Open(null) && x in loc && loc[x] != Unused
      ensures x.Valid()
    {
      SaysNow(x);
    }

    /** Where the search of `alloc_generic` stops although the list of the class is not empty. */
    ghost predicate Stuck(c: nat)
      reads this`lists, this`loc, loc.Keys
    {
      && Class(c) in lists && lists[Class(c)] != [] && InPagesDirect(c)
      && (forall x :: x in lists[Class(c)] ==> x in loc && !Usable(x))
      && lists[Class(c)][|lists[Class(c)]| - 1].usedBlocks == 0
    }

    lemma StuckIs(c: nat, l: seq<Page>)
      requires Open(null) && Ahead(c, l)
      ensures Stuck(c) <==>
        l != [] && InPagesDirect(c) && (forall j :: 0 <= j < |l| ==> !Usable(l[j])) && l[|l| - 1].usedBlocks == 0
    {
    }

    // ----- what a search that finds nothing leaves behind

    /** The pages in the list of a class, and those of them with no block in use. */
    ghost function InList(c: nat): set<Page>
      reads this`loc
    {
      set p | p in loc && loc[p] == Class(c)
    }

    ghost function Empties(c: nat): set<Page>
      reads this`loc, loc.Keys`usedBlocks
    {
      set p | p in loc && loc[p] == Class(c) && p.usedBlocks == 0
    }

    /** With the pages `empty` given up, no page of the segment is in use any more. */
    static ghost predicate Gone(m: map<Page, ListId>, empty: set<Page>, s: Segment) {
      && (exists p :: p in empty && p in m && p.segment == s)
      && (forall q :: q in m && q.segment == s ==> q in empty || m[q] == Unused)
    }

    /** The pages once those of `empty` were given up and those of `full` went to the full list. */
    static ghost function Searched(m: map<Page, ListId>, empty: set<Page>, full: set<Page>): map<Page, ListId> {
      map p | p in m && !Gone(m, empty, p.segment) :: if p in empty then Unused else if p in full then Full else m[p]
    }

    static ghost predicate Passed(m: map<Page, ListId>, empty: set<Page>, full: set<Page>) {
      && empty !! full && (forall p :: p in empty ==> p in m && m[p] != Unused)
      && (forall p :: p in full ==> p in m && m[p] != Unused)
    }

    static lemma SearchedNothing(m: map<Page, ListId>)
      ensures Searched(m, {}, {}) == m && Passed(m, {}, {})
    {
    }

    /** Giving up one more page. */
    static lemma SearchedEmpty(m: map<Page, ListId>, empty: set<Page>, full: set<Page>, x: Page)
      requires Passed(m, empty, full) && x in m && m[x] != Unused && x !in empty && x !in full
      ensures x in Searched(m, empty, full) && Passed(m, empty + {x}, full)
      ensures AfterRetired(Searched(m, empty, full), x) == Searched(m, empty + {x}, full)
    {
      var n, empty' := Searched(m, empty, full), empty + {x};
      assert !Gone(m, empty, x.segment);
      assert LastOfSegment(n, x) <==> Gone(m, empty', x.segment) by {
        assert forall p :: p in m && p.segment == x.segment ==>
          p in n && (n[p] == Unused <==> p in empty || m[p] == Unused);
        assert x in empty';
      }
      forall s: Segment | s != x.segment
        ensures Gone(m, empty', s) <==> Gone(m, empty, s)
      {
      }
    }

    /** One more page goes to the full list. */
    static lemma SearchedFull(m: map<Page, ListId>, empty: set<Page>, full: set<Page>, x: Page)
      requires Passed(m, empty, full) && x in m && m[x] != Unused && x !in empty && x !in full
      ensures x in Searched(m, empty, full) && Passed(m, empty, full + {x})
      ensures Searched(m, empty, full)[x := Full] == Searched(m, empty, full + {x})
    {
      assert !Gone(m, empty, x.segment);
    }

    /** The pages after a search of class `c` that finds nothing and is not stuck. */
    ghost function SearchedAll(c: nat): map<Page, ListId>
      reads this`loc, loc.Keys`usedBlocks
    {
      Searched(loc, Empties(c), InList(c) - Empties(c))
    }

    /** A search of class `c` that finds nothing leaves an unused page. */
    ghost predicate UnusedAfter(c: nat)
      reads this`loc, loc.Keys`usedBlocks
    {
      exists p :: p in loc && (loc[p] == Unused || p in Empties(c)) && !Gone(loc, Empties(c), p.segment)
    }

    /** No page of the class is usable. */
    ghost predicate NoneUsable(c: nat)
      reads this`loc, loc.Keys
    {
      forall p :: p in loc && loc[p] == Class(c) ==> !Usable(p)
    }

    /** The pages of a list up to the one at `k`, in `part` and outside it. */
    static ghost function UpTo(l: seq<Page>, k: nat, part: set<Page>): (r: (set<Page>, set<Page>))
      requires k <= |l|
    {
      (set p | p in l[..k] && p in part, set p | p in l[..k] && p !in part)
    }

    static lemma UpToNext(l: seq<Page>, k: nat, part: set<Page>)
      requires k < |l| && Distinct(l)
      ensures var (a, b), (a', b') := UpTo(l, k, part), UpTo(l, k + 1, part);
        && l[k] !in a && l[k] !in b
        && (if l[k] in part then a' == a + {l[k]} && b' == b else a' == a && b' == b + {l[k]})
    {
      assert l[..k + 1] == l[..k] + [l[k]];
    }

    /** The loop of `alloc_generic`: the first usable page of the class, if there is one. */
    method FindPage(c: nat) returns (page: Page?)
      requires Open(null) && AllDirect(direct) && c < 17
      modifies this`lists, this`loc, this`direct, this`at, loc.Keys, at.Values
      ensures Open(null) && AllDirect(direct) && Subset(at, old(at)) && loc.Keys <= old(loc).Keys
      ensures page != null ==> page in loc && loc[page] == Class(c) && page.sizeClass == c && page.freeList != []
      ensures page == old(FirstUsable(c)) && (page == null <==> old(NoneUsable(c)))
      ensures page != null ==>
        && page.freeList == old(FirstFree(c)) && Class(c) in old(lists)
        && exists k :: StoppedAt(old(loc), old(lists)[Class(c)], old(Empties(c)), c, k, page)
      ensures old(Stuck(c)) ==> page == null
      ensures page == null ==> Class(c) in lists && (lists[Class(c)] != [] <==> old(Stuck(c)))
      ensures page == null && !old(Stuck(c)) ==> loc == old(SearchedAll(c))
      ensures page == null && !old(Stuck(c)) ==> Unused in lists && (lists[Unused] != [] <==> old(UnusedAfter(c)))
    {
      hide *;
      ghost var s := Begun(c);
      ghost var a0, first, free, none, stuck := at, FirstUsable(c), FirstFree(c), NoneUsable(c), Stuck(c);
      ghost var k: nat := 0;
      ghost var stayed := false;
      SubsetOf(at, 0);
      var i := 0;
      ListLeft(s, c, k, stayed);
      while i < |lists[Class(c)]|
        invariant OnTheWay(s, c, k, stayed) && Subset(at, a0) && loc.Keys <= s.before.Keys
        invariant k <= |s.list| && Class(c) in lists && i == if stayed then 1 else 0
        decreases |s.list| - k
      {
        ListLeft(s, c, k, stayed);
        var x := lists[Class(c)][i];
        SubsetValues(at, a0);
        ghost var a1 := at;
        var found, stays := TryNext(c, s, k, x);
        SubsetTrans(at, a1, a0);
        if found {
          FoundFirst(s, first, free, none, stuck, InPagesDirect(c), k);
          StoppedIs(s, c, k, x);
          return x;
        }
        k := k + 1;
        ListLeft(s, c, k, stays);
        if stays {
          stayed := true;
          i := i + 1;
        }
      }
      ListLeft(s, c, k, stayed);
      page := null;
      Over(s, c, stayed);
      FoundNone(s, first, free, none, stuck, InPagesDirect(c));
      UnusedNow();
    }

    /** The search came to page `k`, which is `x`: it is done with those before and has not touched the others. */
    ghost predicate StoppedAt(m0: map<Page, ListId>, l: seq<Page>, empty: set<Page>, c: nat, k: nat, x: Page)
      reads this`lists, this`loc
    {
      && k < |l| && l[k] == x && Class(c) in lists && lists[Class(c)] == l[k..] && SearchedTo(m0, l, k, empty)
    }

    lemma StoppedIs(s: Search, c: nat, k: nat, x: Page)
      requires k < |s.list| && s.list[k] == x && Class(c) in lists && lists[Class(c)] == s.list[k..]
      requires SearchedTo(s.before, s.list, k, s.empty)
      ensures StoppedAt(s.before, s.list, s.empty, c, k, x)
    {
    }

    /** What the search began with: the list of the class, and what its pages said. */
    ghost predicate OnTheWay(s: Search, c: nat, k: nat, stayed: bool)
      reads this, loc.Keys, at.Values, s.list
    {
      && Open(null) && AllDirect(direct) && Class(c) in lists
      && k <= |s.list| == |s.usable| == |s.free| && Distinct(s.list)
      && (forall j :: 0 <= j < |s.list| ==> s.list[j] in s.before && s.before[s.list[j]] == Class(c))
      && (if stayed then |lists[Class(c)]| == 1
          else Ahead(c, s.list[k..]) && lists[Class(c)] == s.list[k..] && SearchedTo(s.before, s.list, k, s.empty))
      && (stayed <==> k == |s.list| > 0 && InPagesDirect(c) && s.list[k - 1] in s.empty)
      && (forall j :: k <= j < |s.list| ==>
            s.usable[j] == Usable(s.list[j]) && (s.list[j] in s.empty <==> s.list[j].usedBlocks == 0)
            && s.free[j] == Collected(s.list[j]))
      && (forall j :: 0 <= j < k ==> !s.usable[j])
    }

    lemma WayIs(s: Search, c: nat, k: nat, stayed: bool)
      ensures OnTheWay(s, c, k, stayed) <==>
        && Open(null) && AllDirect(direct) && Class(c) in lists
        && k <= |s.list| == |s.usable| == |s.free| && Distinct(s.list)
        && (forall j :: 0 <= j < |s.list| ==> s.list[j] in s.before && s.before[s.list[j]] == Class(c))
        && (if stayed then |lists[Class(c)]| == 1
            else Ahead(c, s.list[k..]) && lists[Class(c)] == s.list[k..] && SearchedTo(s.before, s.list, k, s.empty))
        && (stayed <==> k == |s.list| > 0 && InPagesDirect(c) && s.list[k - 1] in s.empty)
        && (forall j :: k <= j < |s.list| ==>
              s.usable[j] == Usable(s.list[j]) && (s.list[j] in s.empty <==> s.list[j].usedBlocks == 0)
              && s.free[j] == Collected(s.list[j]))
        && (forall j :: 0 <= j < k ==> !s.usable[j])
    {
    }

    /** What the loop reads of the list. */
    lemma ListLeft(s: Search, c: nat, k: nat, stayed: bool)
      requires OnTheWay(s, c, k, stayed)
      ensures Class(c) in lists && k <= |s.list| == |s.usable| && forall j :: 0 <= j < k ==> !s.usable[j]
      ensures stayed ==> |lists[Class(c)]| == 1 && k == |s.list|
      ensures !stayed ==> lists[Class(c)] == s.list[k..]
      ensures !stayed && k < |s.list| ==> s.list[k] in loc && s.list[k].segment in at.Values
    {
      if !stayed && k < |s.list| {
        HomeOf(c, s.list[k..]);
      }
    }

    /** What the usable pages of the list say about the search. */
    static ghost predicate Foretold(s: Search, first: Page?, free: seq<nat>, none: bool, stuck: bool, direct: bool) {
      && |s.list| == |s.usable| == |s.free|
      && (forall k: nat :: IsFirst(s, k) ==> first == s.list[k] && free == s.free[k] && !none && !stuck)
      && (NoneIs(s) ==> first == null && none && (stuck <==> s.list != [] && direct && s.list[|s.list| - 1] in s.empty))
    }

    static ghost predicate IsFirst(s: Search, k: nat) {
      k < |s.list| == |s.usable| == |s.free| && s.usable[k] && forall j :: 0 <= j < k ==> !s.usable[j]
    }

    static ghost predicate NoneIs(s: Search) {
      |s.list| == |s.usable| && forall k :: 0 <= k < |s.list| ==> !s.usable[k]
    }

    static lemma FoundFirst(s: Search, first: Page?, free: seq<nat>, none: bool, stuck: bool, direct: bool, k: nat)
      requires Foretold(s, first, free, none, stuck, direct) && k < |s.list| && s.usable[k]
      requires forall j :: 0 <= j < k ==> !s.usable[j]
      ensures first == s.list[k] && k < |s.free| && free == s.free[k] && !none && !stuck
    {
      assert IsFirst(s, k);
    }

    static lemma FoundNone(s: Search, first: Page?, free: seq<nat>, none: bool, stuck: bool, direct: bool)
      requires Foretold(s, first, free, none, stuck, direct) && forall k :: 0 <= k < |s.list| ==> !s.usable[k]
      ensures first == null && none && (stuck <==> s.list != [] && direct && s.list[|s.list| - 1] in s.empty)
    {
      assert NoneIs(s);
    }

    /** What was noted of the pages of the list is so. */
    ghost predicate Noted(s: Search)
      reads s.list
    {
      && |s.list| == |s.usable| == |s.free|
      && (forall j :: 0 <= j < |s.list| ==> s.usable[j] == Usable(s.list[j]) && s.free[j] == Collected(s.list[j]))
      && (forall j :: 0 <= j < |s.list| ==> (s.list[j] in s.empty <==> s.list[j].usedBlocks == 0))
    }

    lemma NotedAt(s: Search, k: nat)
      requires Noted(s) && k < |s.list|
      ensures |s.list| == |s.usable| == |s.free|
      ensures s.usable[k] == Usable(s.list[k]) && s.free[k] == Collected(s.list[k])
      ensures s.list[k] in s.empty <==> s.list[k].usedBlocks == 0
    {
    }

    /** Page `k` is the first usable one. */
    lemma ForetellFirst(s: Search, c: nat, k: nat)
      requires Noted(s) && FirstUsable(c) == FirstOf(s.list) && IsFirst(s, k)
      requires NoneUsable(c) || Stuck(c) ==> forall j :: 0 <= j < |s.list| ==> !Usable(s.list[j])
      ensures FirstUsable(c) == s.list[k] && FirstFree(c) == s.free[k] && !NoneUsable(c) && !Stuck(c)
    {
      forall j | 0 <= j < k
        ensures !Usable(s.list[j])
      {
        NotedAt(s, j);
      }
      NotedAt(s, k);
      hide Noted, Usable, Collected, FirstOf, FirstUsable, FirstFree, NoneUsable, Stuck;
      FirstOfIs(s.list, k);
      FreeForetold(s, c, k);
    }

    /** No page is usable. */
    lemma ForetellNone(s: Search, c: nat)
      requires Noted(s) && FirstUsable(c) == FirstOf(s.list) && NoneIs(s)
      requires NoneUsable(c) <==> forall j :: 0 <= j < |s.list| ==> !Usable(s.list[j])
      requires Stuck(c) <==>
        (s.list != [] && InPagesDirect(c) && (forall j :: 0 <= j < |s.list| ==> !Usable(s.list[j]))
         && s.list[|s.list| - 1].usedBlocks == 0)
      ensures FirstUsable(c) == null && NoneUsable(c)
      ensures Stuck(c) <==> s.list != [] && InPagesDirect(c) && s.list[|s.list| - 1] in s.empty
    {
      forall j | 0 <= j < |s.list|
        ensures !Usable(s.list[j])
      {
        NotedAt(s, j);
      }
      if s.list != [] {
        NotedAt(s, |s.list| - 1);
      }
      hide Noted, Usable, FirstOf, FirstUsable, NoneUsable, Stuck, InPagesDirect;
      FirstOfIs(s.list, |s.list|);
    }

    lemma Foretell(s: Search, c: nat)
      requires Noted(s) && FirstUsable(c) == FirstOf(s.list)
      requires NoneUsable(c) <==> forall j :: 0 <= j < |s.list| ==> !Usable(s.list[j])
      requires Stuck(c) <==>
        (s.list != [] && InPagesDirect(c) && (forall j :: 0 <= j < |s.list| ==> !Usable(s.list[j]))
         && s.list[|s.list| - 1].usedBlocks == 0)
      ensures Foretold(s, FirstUsable(c), FirstFree(c), NoneUsable(c), Stuck(c), InPagesDirect(c))
    {
      assert |s.list| == |s.usable| == |s.free|;
      hide Noted, Usable, FirstOf, FirstUsable, FirstFree, NoneUsable, Stuck, InPagesDirect;
      forall k: nat | IsFirst(s, k)
        ensures k < |s.list| == |s.free|
        ensures FirstUsable(c) == s.list[k] && FirstFree(c) == s.free[k] && !NoneUsable(c) && !Stuck(c)
      {
        ForetellFirst(s, c, k);
      }
      hide IsFirst;
      if NoneIs(s) {
        ForetellNone(s, c);
      }
    }

    lemma FreeForetold(s: Search, c: nat, k: nat)
      requires k < |s.list| == |s.free| && FirstUsable(c) == s.list[k] && s.free[k] == Collected(s.list[k])
      ensures FirstFree(c) == s.free[k]
    {
    }

    lemma NotedNow(s: Search, c: nat)
      requires |s.list| == |s.usable| == |s.free|
      requires forall j :: 0 <= j < |s.list| ==> s.usable[j] == Usable(s.list[j]) && s.free[j] == Collected(s.list[j])
      requires forall j :: 0 <= j < |s.list| ==> (s.list[j] in s.empty <==> s.list[j].usedBlocks == 0)
      ensures Noted(s)
    {
    }

    lemma Begun(c: nat) returns (s: Search)
      requires Open(null) && AllDirect(direct) && c < 17
      ensures OnTheWay(s, c, 0, false) && s.before == loc
      ensures Foretold(s, FirstUsable(c), FirstFree(c), NoneUsable(c), Stuck(c), InPagesDirect(c))
      ensures SearchedAll(c) == Searched(s.before, s.empty, (set p | p in s.list) - s.empty)
      ensures s.empty <= set p | p in s.list
      ensures Class(c) in lists && s.list == lists[Class(c)] && s.empty == Empties(c)
      ensures UnusedAfter(c) <==> exists p :: p in SearchedAll(c) && SearchedAll(c)[p] == Unused
    {
      hide *;
      UnusedIff(c);
      SearchedAllIs(c);
      AheadIs(c);
      var l := lists[Class(c)];
      StuckIs(c, l);
      ListIs(c, l);
      AheadWas(c, l);
      NothingSearched(l, Empties(c));
      assert l[0..] == l;
      s := Search(l, loc, Empties(c), seq(|l|, j requires 0 <= j < |l| reads l => Usable(l[j])),
                  seq(|l|, j requires 0 <= j < |l| reads l => Collected(l[j])));
      NotedNow(s, c);
      Foretell(s, c);
      WayIs(s, c, 0, false);
    }

    lemma Over(s: Search, c: nat, stayed: bool)
      requires OnTheWay(s, c, |s.list|, stayed) && s.empty <= set p | p in s.list
      ensures Open(null) && AllDirect(direct) && Class(c) in lists && |s.list| == |s.usable|
      ensures forall j :: 0 <= j < |s.list| ==> !s.usable[j]
      ensures lists[Class(c)] != [] <==> stayed
      ensures stayed <==> s.list != [] && InPagesDirect(c) && s.list[|s.list| - 1] in s.empty
      ensures !stayed ==> loc == Searched(s.before, s.empty, (set p | p in s.list) - s.empty)
    {
      AllSearched(s.before, s.list, s.empty, set p | p in s.list);
      hide Searched;
    }

    /** What the search leaves, and whether a page of it is unused. */
    lemma UnusedIff(c: nat)
      ensures UnusedAfter(c) <==> exists p :: p in SearchedAll(c) && SearchedAll(c)[p] == Unused
    {
      var m, empty, full, n := loc, Empties(c), InList(c) - Empties(c), SearchedAll(c);
      if UnusedAfter(c) {
        var p :| p in m && (m[p] == Unused || p in empty) && !Gone(m, empty, p.segment);
        assert p in n && n[p] == Unused;
      }
      if exists p :: p in n && n[p] == Unused {
        var p :| p in n && n[p] == Unused;
        assert p in m && !Gone(m, empty, p.segment);
        assert m[p] == Unused || p in empty;
      }
    }

    lemma UnusedNow()
      requires Open(null)
      ensures Unused in lists && (lists[Unused] != [] <==> exists p :: p in loc && loc[p] == Unused)
    {
      ListsExistIn();
      if lists[Unused] != [] {
        Member(lists, loc, Unused, lists[Unused][0]);
      }
      if p :| p in loc && loc[p] == Unused {
        Member(lists, loc, Unused, p);
      }
    }

    /** The first usable page of a list, null if there is none. */
    static ghost function FirstOf(l: seq<Page>): (x: Page?)
      reads l
      ensures x != null ==> x in l
    {
      if l == [] then null else if Usable(l[0]) then l[0] else FirstOf(l[1..])
    }

    ghost function FirstUsable(c: nat): Page?
      reads this`lists, if Class(c) in lists then set p | p in lists[Class(c)] else {}
    {
      if Class(c) in lists then FirstOf(lists[Class(c)]) else null
    }

    /** The blocks that the first usable page of the class has to allocate. */
    ghost function FirstFree(c: nat): seq<nat>
      reads this`lists, if Class(c) in lists then set p | p in lists[Class(c)] else {}
    {
      if FirstUsable(c) == null then [] else Collected(FirstUsable(c))
    }

    static lemma {:induction false} FirstOfIs(l: seq<Page>, k: nat)
      requires k <= |l| && forall j :: 0 <= j < k ==> !Usable(l[j])
      ensures k < |l| && Usable(l[k]) ==> FirstOf(l) == l[k]
      ensures k == |l| ==> FirstOf(l) == null
      decreases |l|
    {
      if k > 0 {
        FirstOfIs(l[1..], k - 1);
      }
    }

    lemma InListIs(c: nat, l: seq<Page>)
      requires Open(null) && Ahead(c, l) && c < 18
      ensures forall p :: p in l <==> p in loc && loc[p] == Class(c)
    {
      forall p
        ensures p in l <==> p in loc && loc[p] == Class(c)
      {
        Member(lists, loc, Class(c), p);
      }
    }

    lemma ListIs(c: nat, l: seq<Page>)
      requires Open(null) && Ahead(c, l) && c < 18
      ensures InList(c) == set p | p in l
      ensures forall j :: 0 <= j < |l| ==>
        l[j] in loc && loc[l[j]] == Class(c) && (l[j] in Empties(c) <==> l[j].usedBlocks == 0)
      ensures Empties(c) <= InList(c)
      ensures NoneUsable(c) <==> forall j :: 0 <= j < |l| ==> !Usable(l[j])
      ensures FirstUsable(c) == FirstOf(l)
    {
      InListIs(c, l);
      AheadWas(c, l);
      hide Open, Ahead, Usable, FirstOf;
      assert forall j :: 0 <= j < |l| ==> l[j] in l;
    }

    lemma SearchedAllIs(c: nat)
      ensures SearchedAll(c) == Searched(loc, Empties(c), InList(c) - Empties(c))
    {
    }

    /** The search has done with the first `k` pages of the list. */
    ghost predicate SearchedTo(m0: map<Page, ListId>, l: seq<Page>, k: nat, empty: set<Page>)
      reads this`loc
    {
      k <= |l| && (var (a, b) := UpTo(l, k, empty); Passed(m0, a, b) && loc == Searched(m0, a, b))
    }

    lemma NothingSearched(l: seq<Page>, empty: set<Page>)
      ensures SearchedTo(loc, l, 0, empty)
    {
      UpToFirst(l, empty);
      SearchedNothing(loc);
    }

    lemma AllSearched(m0: map<Page, ListId>, l: seq<Page>, empty: set<Page>, inList: set<Page>)
      requires empty <= inList && inList == set p | p in l
      ensures SearchedTo(m0, l, |l|, empty) ==> loc == Searched(m0, empty, inList - empty)
    {
      UpToLast(l, empty);
      var (a, b) := UpTo(l, |l|, empty);
      assert a == empty && b == inList - empty;
    }

    lemma SearchedIs(m0: map<Page, ListId>, l: seq<Page>, k: nat, empty: set<Page>)
      ensures SearchedTo(m0, l, k, empty) <==>
        k <= |l| && (var (a, b) := UpTo(l, k, empty); Passed(m0, a, b) && loc == Searched(m0, a, b))
    {
    }

    /** One round of the search, on page `k` of the list that it began with. */
    method TryNext(c: nat, ghost s: Search, ghost k: nat, x: Page) returns (found: bool, stays: bool)
      requires OnTheWay(s, c, k, false) && k < |s.list| && x == s.list[k] && c < 17
      modifies this`lists, this`loc, this`direct, this`at, x, x.segment`usedPages
      ensures Subset(at, old(at)) && loc.Keys <= old(loc).Keys && k < |s.usable| && found == s.usable[k]
      ensures found ==> Open(null) && AllDirect(direct) && x.freeList != []
      ensures found ==> x in loc && loc[x] == Class(c) && x.sizeClass == c
      ensures found ==> k < |s.free| && x.freeList == s.free[k] && SearchedTo(s.before, s.list, k, s.empty)
      ensures found ==> Class(c) in lists && lists[Class(c)] == s.list[k..]
      ensures !found ==> OnTheWay(s, c, k + 1, stays)
    {
      hide *;
      WayIs(s, c, k, false);
      ghost var rest := s.list[k..];
      RestDistinct(s.list, k);
      AheadWas(c, rest);
      SearchedIs(s.before, s.list, k, s.empty);
      found, stays := TryFirst(c, rest, x);
      OneFurther(s.before, s.list, k, s.empty, c);
      SearchedIs(s.before, s.list, k + 1, s.empty);
      SearchedIs(s.before, s.list, k, s.empty);
      if found {
        AheadFirst(c, rest);
      } else {
        AheadWas(c, if stays then rest else rest[1..]);
        WayIs(s, c, k + 1, stays);
      }
    }

    static lemma UpToFirst(l: seq<Page>, part: set<Page>)
      ensures UpTo(l, 0, part) == ({}, {})
    {
      assert l[..0] == [];
      assert UpTo(l, 0, part).0 == {} && UpTo(l, 0, part).1 == {};
    }

    lemma UpToLast(l: seq<Page>, part: set<Page>)
      ensures var (a, b) := UpTo(l, |l|, part);
        (forall p :: p in a <==> p in l && p in part) && (forall p :: p in b <==> p in l && p !in part)
    {
      assert l[..|l|] == l;
    }

    static lemma OneFurther(m: map<Page, ListId>, l: seq<Page>, k: nat, empty: set<Page>, c: nat)
      requires k < |l| && Distinct(l) && l[k] in m && m[l[k]] == Class(c)
      requires Passed(m, UpTo(l, k, empty).0, UpTo(l, k, empty).1)
      ensures Passed(m, UpTo(l, k + 1, empty).0, UpTo(l, k + 1, empty).1)
      ensures var (a, b), (a', b') := UpTo(l, k, empty), UpTo(l, k + 1, empty);
        var n := Searched(m, a, b);
        Searched(m, a', b') == if l[k] in empty then AfterRetired(n, l[k]) else n[l[k] := Full]
    {
      var (a, b) := UpTo(l, k, empty);
      UpToNext(l, k, empty);
      hide UpTo, Searched, Passed, AfterRetired;
      if l[k] in empty {
        SearchedEmpty(m, a, b, l[k]);
      } else {
        SearchedFull(m, a, b, l[k]);
      }
    }

    lemma SubsetValues(a: map<nat, Segment>, b: map<nat, Segment>)
      requires Subset(a, b)
      ensures a.Values <= b.Values
    {
    }

    lemma SubsetTrans(a: map<nat, Segment>, b: map<nat, Segment>, c: map<nat, Segment>)
      requires Subset(a, b) && Subset(b, c)
      ensures Subset(a, c)
    {
    }

    lemma RestDistinct(l: seq<Page>, k: nat)
      requires Distinct(l) && k < |l|
      ensures Distinct(l[k..]) && l[k..][0] == l[k] && l[k..][1..] == l[k + 1..]
      ensures forall j :: k < j < |l| ==> l[j] != l[k]
    {
    }

    lemma HomeOf(c: nat, rest: seq<Page>)
      requires Open(null) && Ahead(c, rest) && rest != []
      ensures rest[0] in loc && rest[0].segment in at.Values
    {
      Opening(rest[0]);
    }

    // ----- new segments

    /** There is room for a segment of `size` bytes at `base`. */
    static ghost predicate RoomFor(at: map<nat, Segment>, base: nat, size: nat) {
      && BaseOk(base) && base !in at && size > 0x2000
      && forall b :: b in at ==> b + at[b].size <= base || base + size <= b
    }

    /** A segment has come, with pages that are all in one place. */
    ghost predicate Joined(s: Segment, a0: map<nat, Segment>, m0: map<Page, ListId>, l: ListId)
      reads this`at, this`loc, s, s.pages
    {
      && RoomFor(a0, s.base, s.size) && at == a0[s.base := s] && SegmentOk(s)
      && loc.Keys == m0.Keys + (set p | p in s.pages) && (forall p :: p in m0 ==> p !in s.pages && loc[p] == m0[p])
      && (forall p :: p in s.pages ==> p in loc && loc[p] == l && p.handed == {})
    }

    lemma JoinedSegments(s: Segment, a0: map<nat, Segment>, m0: map<Page, ListId>, l: ListId)
      requires SegmentsOk(a0, m0) && Joined(s, a0, m0, l)
      ensures SegmentsOk(at, loc)
    {
      forall p | p in loc
        ensures Home(at, p)
      {
        if p in m0 {
          assert Home(a0, p);
        } else {
          var i :| 0 <= i < |s.pages| && s.pages[i] == p;
        }
      }
    }

    lemma JoinedCounts(s: Segment, a0: map<nat, Segment>, m0: map<Page, ListId>, l: ListId)
      requires SegmentsOk(a0, m0) && CountsOk(a0, m0, null) && Joined(s, a0, m0, l)
      requires s.usedPages == if l == Unused then 0 else 1
      requires l != Unused ==> |s.pages| == 1
      ensures CountsOk(at, loc, null)
    {
      forall b | b in at
        ensures at[b].usedPages == UsedCount(at[b].pages, loc)
      {
        if b in a0 {
          assert SegmentOk(a0[b]);
          SameCount(a0[b].pages, m0, loc);
        } else {
          NoneUsed(s.pages, loc);
        }
      }
    }

    lemma JoinedStates(s: Segment, a0: map<nat, Segment>, m0: map<Page, ListId>, l: ListId, x: Page?)
      requires PagesOk(m0, null) && DirectOk(direct, m0, null) && LiveOk(m0, null) && FullOk(m0, null)
      requires (l == Unused && s.shift == 16 && x == null) || (l == Nowhere && s.pages == [x])
      requires Joined(s, a0, m0, l)
      ensures PagesOk(loc, x) && DirectOk(direct, loc, x) && LiveOk(loc, x) && FullOk(loc, x)
      ensures x != null ==> x !in direct && Fits(x)
    {
      forall i: nat | i < 128
        ensures DirectAt(direct, loc, i, x) && (x != null ==> direct[i] != x)
      {
        assert DirectAt(direct, m0, i, null);
      }
      forall p | p in loc && p != x
        ensures PageOk(p, loc[p])
      {
        if p in m0 {
          assert PageOk(p, m0[p]);
        } else {
          var i :| 0 <= i < |s.pages| && s.pages[i] == p;
        }
      }
    }

    lemma JoinedOpen(s: Segment, a0: map<nat, Segment>, m0: map<Page, ListId>, l: ListId, x: Page?)
      requires ListsOk(lists, loc) && SegmentsOk(a0, m0) && PagesOk(m0, null) && CountsOk(a0, m0, null)
      requires DirectOk(direct, m0, null) && LiveOk(m0, null) && FullOk(m0, null) && Joined(s, a0, m0, l)
      requires (l == Unused && s.shift == 16 && x == null && s.usedPages == 0)
        || (l == Nowhere && s.pages == [x] && s.usedPages == 1)
      ensures Open(x) && (x != null ==> x !in direct && Fits(x))
    {
      hide *;
      JoinedSegments(s, a0, m0, l);
      JoinedCounts(s, a0, m0, l);
      JoinedStates(s, a0, m0, l, x);
      Conjoined(x);
    }

    /** The pages that a new segment has so far. */
    static ghost predicate Joining(s: Segment, pages: seq<Page>, m: map<Page, ListId>, m0: map<Page, ListId>)
      reads pages
    {
      && (forall i :: 0 <= i < |pages| ==> pages[i].segment == s && pages[i].index == i)
      && m.Keys == m0.Keys + (set p | p in pages) && (forall p :: p in m0 ==> p !in pages && m[p] == m0[p])
      && (forall p :: p in pages ==> p in m && m[p] == Unused && p.handed == {})
    }

    lemma JoinedOne(page: Page, s: Segment, pages: seq<Page>, m: map<Page, ListId>, m0: map<Page, ListId>)
      requires Joining(s, pages, m, m0) && page.segment == s && page.index == |pages|
      requires page !in pages && page !in m0 && page.handed == {}
      ensures page !in m && Joining(s, pages + [page], m[page := Unused], m0)
      ensures m[page := Nowhere][page := Unused] == m[page := Unused]
    {
    }

    lemma AllJoined(s: Segment, a0: map<nat, Segment>, m0: map<Page, ListId>)
      requires Joining(s, s.pages, loc, m0) && |s.pages| == 64 && RoomFor(a0, s.base, s.size) && at == a0[s.base := s]
      requires s.shift == 16 && s.size == 0x40_0000
      ensures Joined(s, a0, m0, Unused)
    {
    }

    lemma NotEmptyNow(l0: map<ListId, seq<Page>>, l: ListId, p: Page)
      requires l in l0
      ensures l in LinkedAtEnd(l0, l, p) && LinkedAtEnd(l0, l, p)[l] == l0[l] + [p]
      ensures LinkedAtEnd(l0, l, p) == l0[l := LinkedAtEnd(l0, l, p)[l]]
    {
    }

    lemma NothingJoined(s: Segment)
      requires s.pages == []
      ensures Joining(s, s.pages, loc, loc)
    {
    }

    /** One round of the loop in `segment_init_small`. */
    method NewUnusedPage(s: Segment, i: nat, ghost m0: map<Page, ListId>)
      requires ListsOk(lists, loc) && Joining(s, s.pages, loc, m0) && |s.pages| == i
      requires forall p :: p in m0 ==> allocated(p)
      modifies this`lists, this`loc, s`pages
      ensures ListsOk(lists, loc) && Joining(s, s.pages, loc, m0) && |s.pages| == i + 1
      ensures Unused in old(lists) && Unused in lists && |lists[Unused]| == |old(lists)[Unused]| + 1
      ensures lists == old(lists)[Unused := lists[Unused]]
      ensures exists page :: fresh(page) && s.pages == old(s.pages) + [page]
    {
      hide *;
      ListsExistIn();
      var page := new Page(s, i);
      JoinedOne(page, s, s.pages, loc, m0);
      NewPageOk(lists, loc, page);
      LinkedOk(lists, loc[page := Nowhere], Unused, page);
      NotEmptyNow(lists, Unused, page);
      lists := LinkedAtEnd(lists, Unused, page);
      loc := loc[page := Unused];
      s.pages := s.pages + [page];
    }

    lemma ListsExistIn()
      requires ListsOk(lists, loc)
      ensures Unused in lists && Unused.Exists()
    {
    }

    /** `segment_init_small`: a segment of 64 unused pages. */
    method NewSmallSegment(base: nat)
      requires Open(null) && RoomFor(at, base, 0x40_0000)
      modifies this`lists, this`loc, this`at
      ensures Open(null) && Unused in lists && Unused in old(lists) && |lists[Unused]| == |old(lists)[Unused]| + 64
      ensures fresh(loc.Keys - old(loc).Keys) && fresh(at.Values - old(at).Values) && loc.Keys >= old(loc).Keys
      ensures lists == old(lists)[Unused := lists[Unused]] && Gained(old(at), at, base, 0x40_0000)
      ensures forall p :: p in loc ==> (p in old(loc) && loc[p] == old(loc)[p]) || p.segment == at[base]
    {
      hide *;
      Conjuncts(null);
      ListsExistIn();
      ghost var m0, a0, n := loc, at, |lists[Unused]|;
      var s := new Segment(base, 16, 0x40_0000);
      NothingJoined(s);
      for i := 0 to 64
        invariant ListsOk(lists, loc) && Joining(s, s.pages, loc, m0) && |s.pages| == i && at == a0
        invariant Unused in lists && |lists[Unused]| == n + i
        invariant fresh(s) && fresh(s.pages) && s.usedPages == 0 && lists == old(lists)[Unused := lists[Unused]]
      {
        NewUnusedPage(s, i, m0);
      }
      at := at[base := s];
      AllJoined(s, a0, m0);
      JoinedOpen(s, a0, m0, Unused, null);
      JoinedKeys(s, a0, m0);
    }

    lemma JoinedKeys(s: Segment, a0: map<nat, Segment>, m0: map<Page, ListId>)
      requires Joined(s, a0, m0, Unused) || Joined(s, a0, m0, Nowhere)
      ensures loc.Keys - m0.Keys <= (set p | p in s.pages) && loc.Keys >= m0.Keys && at.Values - a0.Values <= {s}
      ensures Gained(a0, at, s.base, s.size) && at[s.base] == s
      ensures forall p :: p in loc ==> (p in m0 && loc[p] == m0[p]) || p.segment == s
    {
    }

    /** `segment_init_large` and `segment_init_huge`: a segment with one page, which is in no list yet. */
    method NewLoneSegment(base: nat, shift: nat, size: nat) returns (page: Page)
      requires Open(null) && RoomFor(at, base, size) && (shift == 14 || (shift == 22 && size == 0x40_0000))
      modifies this`loc, this`at
      ensures Open(page) && page in loc && loc[page] == Nowhere && Home(at, page) && page !in direct
      ensures Fits(page) && page.handed == {}
      ensures page.index == 0 && page.segment.shift == shift && page.segment.size == size && BaseOk(page.segment.base)
      ensures Gained(old(at), at, base, size) && at[base] == page.segment
      ensures fresh(page) && fresh(page.segment)
      ensures fresh(loc.Keys - old(loc).Keys) && fresh(at.Values - old(at).Values) && loc.Keys >= old(loc).Keys
    {
      hide *;
      Conjuncts(null);
      ghost var m0, a0 := loc, at;
      var s := new Segment(base, shift, size);
      page := new Page(s, 0);
      s.pages := [page];
      s.usedPages := 1;
      NewPageOk(lists, loc, page);
      loc := loc[page := Nowhere];
      at := at[base := s];
      LoneJoined(s, page, a0, m0);
      JoinedOpen(s, a0, m0, Nowhere, page);
      JoinedKeys(s, a0, m0);
    }

    lemma LoneJoined(s: Segment, page: Page, a0: map<nat, Segment>, m0: map<Page, ListId>)
      requires s.pages == [page] && page.segment == s && page.index == 0 && page.handed == {} && page !in m0
      requires RoomFor(a0, s.base, s.size) && at == a0[s.base := s] && loc == m0[page := Nowhere]
      requires s.shift == 14 || (s.shift == 22 && s.size == 0x40_0000)
      ensures Joined(s, a0, m0, Nowhere) && Home(at, page) && BaseOk(s.base)
    {
    }

    lemma FitsEmpty(x: Page)
      requires x !in direct && x.handed == {} && forall b :: b in live ==> live[b] != x
      ensures Fits(x)
    {
    }

    lemma InClass(x: Page, c: nat)
      requires x.Valid() && x.sizeClass == c && !x.inFullList && Placed(x.segment.shift, x.index, c)
      ensures PageOk(x, Class(c))
    {
    }

    lemma LastOfList(l0: map<ListId, seq<Page>>, c: nat, x: Page)
      requires Class(c) in l0 && lists == LinkedAtEnd(l0, Class(c), x)
      ensures Class(c) in lists && lists[Class(c)] == l0[Class(c)] + [x]
    {
    }

    lemma NoLive(x: Page)
      requires Fits(x) && x.handed == {}
      ensures forall b :: b in live ==> live[b] != x
    {
    }

    /** `page_init_small_or_large`: page `x` becomes a page of class `c` with all its blocks free. */
    method InitPage(x: Page, c: nat)
      requires Open(x) && x in loc && loc[x] == Nowhere && Home(at, x) && x !in direct && Fits(x) && x.handed == {}
      requires BaseOk(x.segment.base) && Placed(x.segment.shift, x.index, c) && c < 17
      modifies this`lists, this`loc, this`direct, x, x.segment`usedPages
      ensures Open(null) && (AllDirect(old(direct)) ==> AllDirect(direct))
      ensures loc == old(loc)[x := Class(c)] && x.sizeClass == c && x.freeList != []
      ensures Class(c) in old(lists) && lists == LinkedAtEnd(old(lists), Class(c), x) && Class(c) in lists
      ensures lists[Class(c)] != []
      ensures Redirected(old(direct), c, lists[Class(c)][0])
    {
      hide *;
      ghost var l0 := lists;
      NoLive(x);
      ListsExist();
      SmallNumbers(c);
      x.InitSmallOrLarge(c);
      Link(x, Class(c));
      LastOfList(l0, c, x);
      FitsEmpty(x);
      InClass(x, c);
      Closing(x);
      UpdateDirect(c, null);
    }

    lemma SmallNumbers(c: nat)
      requires c < 17
      ensures ClassIsValid(c)
    {
    }

    /** `page_alloc_small` and `page_new_small`: a new segment is asked for only if no page is unused. */
    method PageNewSmall(c: nat, space: Space) returns (page: Page?, halted: bool)
      requires Open(null) && c < 11 && (space.Found? ==> RoomFor(at, space.base, 0x40_0000))
      modifies this`lists, this`loc, this`direct, this`at, loc.Keys, at.Values
      ensures Open(null) && (AllDirect(old(direct)) ==> AllDirect(direct))
      ensures fresh(loc.Keys - old(loc).Keys) && fresh(at.Values - old(at).Values)
      ensures Unused in old(lists) && Unused in lists
      ensures page == null <==> old(lists)[Unused] == [] && !space.Found?
      ensures halted <==> old(lists)[Unused] == [] && space.Stopped?
      ensures old(lists)[Unused] != [] ==>
        && page == old(lists)[Unused][0] && at == old(at) && |lists[Unused]| == |old(lists)[Unused]| - 1
        && Class(c) in old(lists)
        && lists == old(lists)[Unused := lists[Unused]][Class(c) := old(lists)[Class(c)] + [page]]
      ensures page != null ==> page in loc && loc[page] == Class(c) && page.sizeClass == c && page.freeList != []
      ensures page != null ==>
        Class(c) in lists && lists[Class(c)] != [] && Redirected(old(direct), c, lists[Class(c)][0])
      ensures page == null ==> at == old(at)
      ensures page != null && old(lists)[Unused] == [] ==>
        space.Found? && Gained(old(at), at, space.base, 0x40_0000) && page.segment == at[space.base]
    {
      hide *;
      ListsExist();
      UnusedNow();
      if lists[Unused] == [] {
        SmallBound();
        var segment := SegmentAlloc(0x40_0000, space);
        if !segment.Found? {
          return null, segment.Stopped?;
        }
        NewSmallSegment(segment.base);
      }
      UnusedFirst();
      var x := lists[Unused][0];
      ghost var l0 := lists;
      Opening(x);
      UnusedFacts(x);
      Unlink(x);
      ForSmall(x, c);
      InitPage(x, c);
      UnusedShorter(l0, c, x);
      page, halted := x, false;
    }

    static lemma SmallBound()
      ensures PagesFor(0x40_0000) > 0
    {
    }

    lemma UnusedFirst()
      requires Open(null) && Unused in lists && lists[Unused] != []
      ensures var x := lists[Unused][0]; x in loc && loc[x] == Unused && x.segment in at.Values
    {
      var x := lists[Unused][0];
      Member(lists, loc, Unused, x);
      assert Home(at, x);
    }

    lemma UnusedFacts(x: Page)
      requires Open(x) && x in loc && loc[x] == Unused && PageOk(x, loc[x]) && Fits(x) && SegmentOk(x.segment)
      requires Home(at, x)
      ensures x !in direct && x.handed == {} && x.segment.shift == 16 && BaseOk(x.segment.base) && x.index < 64
    {
      forall i | 0 <= i < |direct|
        ensures direct[i] != x
      {
        assert DirectAt(direct, loc, i, x);
      }
    }

    lemma UnusedShorter(l0: map<ListId, seq<Page>>, c: nat, x: Page)
      requires Unused in l0 && x in l0[Unused] && Class(c) in Unlinked(l0, Unused, x)
      requires lists == LinkedAtEnd(Unlinked(l0, Unused, x), Class(c), x)
      ensures Unused in lists && |lists[Unused]| == |l0[Unused]| - 1
      ensures Class(c) in l0 && lists == l0[Unused := lists[Unused]][Class(c) := l0[Class(c)] + [x]]
    {
    }

    lemma ForSmall(x: Page, c: nat)
      requires c < 11 && x.segment.shift == 16 && x.index < 64
      ensures Placed(x.segment.shift, x.index, c)
    {
    }

    lemma ForLarge(x: Page, c: nat)
      requires 11 <= c < 17 && x.segment.shift == 22 && x.index == 0
      ensures Placed(x.segment.shift, x.index, c)
    {
    }

    /** `page_new_large`. */
    method PageNewLarge(c: nat, space: Space) returns (page: Page?, halted: bool)
      requires Open(null) && 11 <= c < 17 && (space.Found? ==> RoomFor(at, space.base, 0x40_0000))
      modifies this`lists, this`loc, this`direct, this`at
      ensures Open(null) && (AllDirect(old(direct)) ==> AllDirect(direct))
      ensures fresh(loc.Keys - old(loc).Keys) && fresh(at.Values - old(at).Values)
      ensures (page == null <==> !space.Found?) && (halted <==> space.Stopped?)
      ensures page != null ==> page in loc && loc[page] == Class(c) && page.sizeClass == c && page.freeList != []
      ensures if page == null then at == old(at)
              else Gained(old(at), at, space.base, 0x40_0000) && page.segment == at[space.base]
    {
      hide *;
      SmallBound();
      var segment := SegmentAlloc(0x40_0000, space);
      if !segment.Found? {
        return null, segment.Stopped?;
      }
      halted := false;
      page := NewLoneSegment(segment.base, 22, 0x40_0000);
      ForLarge(page, c);
      InitPage(page, c);
    }

    lemma HugePlaced(x: Page)
      requires x.Valid() && x.sizeClass == 17 && !x.inFullList && x.segment.shift == 14 && x.index == 0
      ensures PageOk(x, Class(17)) && x.sizeClass == HUGE_SENTINEL
    {
    }

    lemma HugeNumber()
      ensures HUGE_SENTINEL == 17 && Class(17).Exists()
    {
    }

    /** `page_new_huge`. */
    method PageNewHuge(space: Space, size: u64) returns (page: Page?, halted: bool)
      requires Open(null) && SizeIsHuge(size)
      requires space.Found? && Bounded(size) ==> RoomFor(at, space.base, Need(size))
      modifies this`lists, this`loc, this`at
      ensures Open(null)
      ensures fresh(loc.Keys - old(loc).Keys) && fresh(at.Values - old(at).Values)
      ensures (page == null <==> !(Bounded(size) && space.Found?)) && (halted <==> !Bounded(size) || space.Stopped?)
      ensures page != null ==>
        && page in loc && loc[page] == Class(17) && page.sizeClass == 17 && page.freeList != []
        && page.segment.size == Need(size)
      ensures if page == null then at == old(at)
              else Gained(old(at), at, space.base, Need(size)) && page.segment == at[space.base]
    {
      hide *;
      BoundedIs(size);
      var segment := SegmentAlloc(WithHeader(size), space);
      if !segment.Found? {
        return null, segment.Stopped?;
      }
      var x := NewLoneSegment(segment.base, 14, Need(size));
      NoLive(x);
      x.InitHuge();
      HugeNumber();
      Link(x, Class(17));
      FitsEmpty(x);
      HugePlaced(x);
      Closing(x);
      page, halted := x, false;
    }

    /** Not too large for `segment_alloc`. */
    static predicate Bounded(size: nat) {
      SizeIsHuge(size) ==> size + 0x2000 <= MAX_BYTES
    }

    static lemma BoundedIs(size: u64)
      requires SizeIsHuge(size)
      ensures Bounded(size) <==> PagesFor(WithHeader(size)) > 0
    {
      BoundIs(size);
    }

    // ----- allocation

    /** The bytes that `segment_alloc` is asked for when a new segment is needed. */
    static function Need(size: nat): nat {
      if SizeIsHuge(size) then (size + 0x2000 + 4095) / 4096 * 4096 else 0x40_0000
    }

    /** The block handed out at `ptr` is large enough. */
    ghost predicate Holds(ptr: nat, size: nat)
      reads this`live, live.Values`sizeClass
    {
      && ptr in live && ptr in live[ptr].Blocks()
      && size <= BlockSize(live[ptr].sizeClass, live[ptr].segment.size)
    }

    lemma SizeNumbers(size: nat)
      requires size > 0
      ensures !SizeIsHuge(size) ==>
        ClassOfSize(size) < 17 && size <= SizeOfClass(ClassOfSize(size)) && Need(size) == 0x40_0000
      ensures SizeIsSmall(size) <==> ClassOfSize(size) < 11
      ensures SizeIsHuge(size) ==> Need(size) >= size + 0x2000 && !SizeIsSmall(size)
      ensures size <= 1024 ==> SizeIsSmall(size) && !SizeIsHuge(size)
    {
      Constants();
      ClassOfSizeIs(size, 16);
      ClassOfSizeIs(size, 10);
      ClassOfSizeIs(size, ClassOfSize(size));
    }

    lemma HoldsNow(ptr: nat, size: nat, x: Page)
      requires ptr in live && live[ptr] == x && ptr in x.Blocks() && size > 0
      requires if SizeIsHuge(size) then x.sizeClass == 17 && x.segment.size == Need(size)
               else x.sizeClass == ClassOfSize(size)
      ensures Holds(ptr, size)
    {
      SizeNumbers(size);
    }

    lemma RoomStays(a: map<nat, Segment>, b: map<nat, Segment>, base: nat, size: nat)
      requires Subset(a, b) && RoomFor(b, base, size)
      ensures RoomFor(a, base, size)
    {
    }

    /** When `alloc_generic` needs a new segment for a size. */
    ghost predicate Asks(size: nat)
      reads this`lists, this`loc, loc.Keys
    {
      SizeIsHuge(size) ||
      (var c := ClassOfSize(size);
       !Stuck(c) && NoneUsable(c) && (SizeIsSmall(size) ==> !UnusedAfter(c)))
    }

    /** What the space is for, if it is asked for. */
    ghost predicate SpaceOk(size: nat, space: Space)
      reads this`at
    {
      space.Found? && Bounded(size) ==> RoomFor(at, space.base, Need(size))
    }

    /** `alloc_huge`. */
    method AllocHuge(size: u64, space: Space) returns (r: AllocResult)
      requires Open(null) && AllDirect(direct) && SizeIsHuge(size) && SpaceOk(size, space)
      modifies this, loc.Keys, at.Values
      ensures Open(null) && AllDirect(direct)
      ensures r == Halted <==> !Bounded(size) || space == Stopped
      ensures r == OutOfMemory <==> Bounded(size) && space == NoneLeft
      ensures fresh(loc.Keys - old(loc).Keys) && fresh(at.Values - old(at).Values)
      ensures r.Got? ==>
        r.ptr !in old(live) && r.ptr in live && live == old(live)[r.ptr := live[r.ptr]] && Holds(r.ptr, size)
      ensures !r.Got? ==> live == old(live)
      ensures InNewSegment(r, old(at), space, size)
    {
      hide *;
      SpaceIs(size, space);
      ghost var a0 := at;
      var page, halted := PageNewHuge(space, size);
      SubsetOf(at, 0);
      if page == null {
        r := if halted then Halted else OutOfMemory;
        NotGot(r, a0, space, size);
        return;
      }
      ClassNotUnused(page);
      var ptr := Take(page);
      Positive(size);
      HoldsNow(ptr, size, page);
      r := Got(ptr);
      GotInNew(r, a0, space, size, page);
    }

    /** A block that was got is in a segment that is new at the given space; otherwise no segment is new. */
    ghost predicate InNewSegment(r: AllocResult, a0: map<nat, Segment>, space: Space, size: nat)
      reads this`at, this`live
    {
      if r.Got? then
        && space.Found? && Gained(a0, at, space.base, Need(size)) && r.ptr in live
        && live[r.ptr].segment == at[space.base]
      else Subset(at, a0)
    }

    lemma NotGot(r: AllocResult, a0: map<nat, Segment>, space: Space, size: nat)
      requires !r.Got? && Subset(at, a0)
      ensures InNewSegment(r, a0, space, size)
    {
    }

    lemma GotInNew(r: AllocResult, a0: map<nat, Segment>, space: Space, size: nat, x: Page)
      requires r.Got? && space.Found? && r.ptr in live && live[r.ptr] == x
      requires Gained(a0, at, space.base, Need(size)) && x.segment == at[space.base]
      ensures InNewSegment(r, a0, space, size)
    {
    }

    lemma SpaceIs(size: nat, space: Space)
      ensures SpaceOk(size, space) <==> (space.Found? && Bounded(size) ==> RoomFor(at, space.base, Need(size)))
      ensures !SizeIsHuge(size) ==> Bounded(size)
    {
    }

    lemma ClassNotUnused(x: Page)
      requires x in loc && loc[x].Class?
      ensures loc[x] != Unused
    {
    }

    lemma Positive(size: nat)
      requires SizeIsHuge(size)
      ensures size > 0
    {
    }

    /** Where a block of a size may come from: whether from a new segment, and otherwise the first usable page. */
    ghost function Sources(size: nat): Source
      reads this`lists, this`loc, loc.Keys
      reads if Class(ClassOfSize(size)) in lists then set p | p in lists[Class(ClassOfSize(size))] else {}
    {
      var c := ClassOfSize(size);
      Source(Asks(size), if SizeIsHuge(size) then null else FirstUsable(c), FirstIn(FirstFree(c)))
    }

    /**
      The block is in a new segment exactly if one was asked for, and otherwise no segment is new; it is the first
      block of the first usable page of the class, if there is such a page.
     */
    ghost predicate Supplied(r: AllocResult, a0: map<nat, Segment>, space: Space, size: nat, from: Source)
      reads this`at, this`live
    {
      && (if from.asks then InNewSegment(r, a0, space, size) else Subset(at, a0))
      && (from.first != null ==> r.Got? && r.ptr in live && live[r.ptr] == from.first && r.ptr == from.block)
    }

    /** `alloc_generic`: it halts exactly when the search is stuck, or stops in `segment_alloc`. */
    method AllocGeneric(size: u64, space: Space) returns (r: AllocResult)
      requires Open(null) && AllDirect(direct) && size > 0 && SpaceOk(size, space)
      modifies this, loc.Keys, at.Values
      ensures Open(null) && AllDirect(direct)
      ensures fresh(loc.Keys - old(loc).Keys) && fresh(at.Values - old(at).Values)
      ensures r == Halted <==>
        || (!SizeIsHuge(size) && old(Stuck(ClassOfSize(size))))
        || (old(Asks(size)) && (!Bounded(size) || space == Stopped))
      ensures r == OutOfMemory <==> old(Asks(size)) && Bounded(size) && space == NoneLeft
      ensures r.Got? ==>
        r.ptr !in old(live) && r.ptr in live && live == old(live)[r.ptr := live[r.ptr]] && Holds(r.ptr, size)
      ensures !r.Got? ==> live == old(live)
      ensures Supplied(r, old(at), space, size, old(Sources(size)))
    {
      hide *;
      ghost var a0, from := at, Sources(size);
      SourcesAre(size);
      SizeNumbers(size);
      AsksIs(size);
      SpaceIs(size, space);
      if SizeIsHuge(size) {
        r := AllocHuge(size, space);
        SuppliedIs(r, a0, space, size, from);
        return;
      }
      var c := ClassOfSize(size);
      ghost var news := false;
      SubsetOf(at, 0);
      var page := FindPage(c);
      SubsetValues(at, a0);
      if page == null {
        if lists[Class(c)] != [] {
          NotGot(Halted, a0, space, size);
          SuppliedIs(Halted, a0, space, size, from);
          return Halted;
        }
        if space.Found? {
          RoomStays(at, a0, space.base, 0x40_0000);
        }
        var halted;
        ghost var a1 := at;
        page, halted := PageNew(size, c, space);
        if page == null {
          r := if halted then Halted else OutOfMemory;
          NotGot(r, a0, space, size);
          SuppliedIs(r, a0, space, size, from);
          return;
        }
        if from.asks {
          GainedSince(a0, a1, at, space.base, 0x40_0000);
          news := true;
        }
      }
      ghost var free := page.freeList;
      var ptr := Take(page);
      FirstInIs(free);
      HoldsNow(ptr, size, page);
      r := Got(ptr);
      if news {
        GotInNew(r, a0, space, size, page);
      }
      SuppliedIs(r, a0, space, size, from);
    }

    lemma SourcesAre(size: nat)
      ensures var from := Sources(size); var c := ClassOfSize(size);
        && from.asks == Asks(size) && from.first == (if SizeIsHuge(size) then null else FirstUsable(c))
        && from.block == FirstIn(FirstFree(c))
    {
    }

    lemma SuppliedIs(r: AllocResult, a0: map<nat, Segment>, space: Space, size: nat, from: Source)
      ensures Supplied(r, a0, space, size, from) <==>
        && (if from.asks then InNewSegment(r, a0, space, size) else Subset(at, a0))
        && (from.first != null ==> r.Got? && r.ptr in live && live[r.ptr] == from.first && r.ptr == from.block)
    {
    }

    /** The first of some blocks, 0 if there are none. */
    static function FirstIn(free: seq<nat>): nat { if free == [] then 0 else free[0] }

    static lemma FirstInIs(free: seq<nat>)
      ensures FirstIn(free) == if free == [] then 0 else free[0]
    {
    }

    static lemma GainedSince(a0: map<nat, Segment>, a1: map<nat, Segment>, a2: map<nat, Segment>, base: nat, size: nat)
      requires Subset(a1, a0) && RoomFor(a0, base, size) && size > 0 && Gained(a1, a2, base, size)
      ensures Gained(a0, a2, base, size)
    {
    }

    /** The end of `alloc_generic`: a new page of the class. */
    method PageNew(size: nat, c: nat, space: Space) returns (page: Page?, halted: bool)
      requires Open(null) && AllDirect(direct) && c < 17 && (SizeIsSmall(size) <==> c < 11)
      requires space.Found? ==> RoomFor(at, space.base, 0x40_0000)
      modifies this`lists, this`loc, this`direct, this`at, loc.Keys, at.Values
      ensures Open(null) && AllDirect(direct)
      ensures fresh(loc.Keys - old(loc).Keys) && fresh(at.Values - old(at).Values)
      ensures Unused in old(lists)
      ensures var asks := !SizeIsSmall(size) || old(lists)[Unused] == [];
        (page == null <==> asks && !space.Found?) && (halted <==> asks && space.Stopped?)
      ensures page != null ==> page in loc && loc[page] == Class(c) && page.sizeClass == c && page.freeList != []
      ensures if page != null && (!SizeIsSmall(size) || old(lists)[Unused] == [])
              then space.Found? && Gained(old(at), at, space.base, 0x40_0000) && page.segment == at[space.base]
              else at == old(at)
    {
      hide *;
      UnusedNow();
      if SizeIsSmall(size) {
        page, halted := PageNewSmall(c, space);
      } else {
        page, halted := PageNewLarge(c, space);
      }
    }

    lemma AsksIs(size: nat)
      ensures SizeIsHuge(size) ==> Asks(size)
      ensures !SizeIsHuge(size) ==>
        var c := ClassOfSize(size);
        Asks(size) <==> (!Stuck(c) && NoneUsable(c) && (SizeIsSmall(size) ==> !UnusedAfter(c)))
    {
    }

    /** The page that `pages_direct` has for a size. */
    ghost function DirectPage(size: nat): Page?
      requires 0 < size <= 1024 && |direct| == 128
      reads this`direct
    {
      DirectIndexClass(size);
      direct[DirectIndex(size)]
    }

    lemma DirectFacts(size: nat)
      requires Open(null) && AllDirect(direct) && 0 < size <= 1024
      ensures |direct| == 128 && DirectIndex(size) < 128 && direct[DirectIndex(size)] != null
      ensures var x := direct[DirectIndex(size)]; x in loc && loc[x] != Unused && x.sizeClass == ClassOfSize(size)
      ensures DirectPage(size) == direct[DirectIndex(size)]
    {
      DirectIndexClass(size);
      assert DirectAt(direct, loc, DirectIndex(size), null);
    }

    /** `alloc_small`. */
    method AllocSmall(size: u64, space: Space) returns (r: AllocResult)
      requires Open(null) && AllDirect(direct) && 0 < size <= 1024 && SpaceOk(size, space)
      modifies this, loc.Keys, at.Values
      ensures Open(null) && AllDirect(direct)
      ensures fresh(loc.Keys - old(loc).Keys) && fresh(at.Values - old(at).Values)
      ensures |old(direct)| == 128 && old(DirectPage(size)) != null
      ensures r == Halted <==>
        old(DirectPage(size).freeList) == [] && (old(Stuck(ClassOfSize(size))) || (old(Asks(size)) && space == Stopped))
      ensures r == OutOfMemory <==> old(DirectPage(size).freeList) == [] && old(Asks(size)) && space == NoneLeft
      ensures r.Got? ==>
        r.ptr !in old(live) && r.ptr in live && live == old(live)[r.ptr := live[r.ptr]] && Holds(r.ptr, size)
      ensures !r.Got? ==> live == old(live)
      ensures old(DirectPage(size).freeList) != [] ==>
        && r.Got? && unchanged(this`lists, this`direct, this`loc, this`at) && live[r.ptr] == old(DirectPage(size))
        && r.ptr == old(DirectPage(size).freeList)[0]
        && old(DirectPage(size)).freeList == old(DirectPage(size).freeList)[1..]
        && old(DirectPage(size)).localList == old(DirectPage(size).localList)
      ensures old(DirectPage(size).freeList) == [] ==> Supplied(r, old(at), space, size, old(Sources(size)))
    {
      hide *;
      SizeNumbers(size);
      DirectFacts(size);
      var page := direct[DirectIndex(size)];
      ghost var free := page.freeList;
      var ptr := Take(page);
      if ptr == 0 {
        SpaceIs(size, space);
        r := AllocGeneric(size, space);
        return;
      }
      HoldsNow(ptr, size, page);
      r := Got(ptr);
    }

    /**
      `alloc`, with `space` for how `segment_alloc` ends if it is called. Exactly one block more is handed out, it
      was free and is large enough, or nothing is. The kernel halts when the page for the size has no free block
      and the last page of the class is empty, with no usable page before it; and when a new segment is needed
      and the size is too large for a VMA or `segment_alloc` stops. A null pointer comes exactly when a new
      segment is needed and there is no space.
     */
    method Alloc(size: u64, space: Space) returns (r: AllocResult)
      requires Valid() && SpaceOk(size, space)
      modifies this, loc.Keys, at.Values
      ensures Valid()
      ensures fresh(loc.Keys - old(loc).Keys) && fresh(at.Values - old(at).Values)
      ensures r.Got? ==>
        r.ptr !in old(live) && r.ptr in live && live == old(live)[r.ptr := live[r.ptr]] && Holds(r.ptr, size)
      ensures !r.Got? ==> live == old(live)
      ensures |old(direct)| == 128
      ensures size > 1024 ==>
        && (r == Halted <==> old(Asks(size)) && (!Bounded(size) || space == Stopped))
        && (r == OutOfMemory <==> old(Asks(size)) && Bounded(size) && space == NoneLeft)
        && Supplied(r, old(at), space, size, old(Sources(size)))
      ensures size <= 1024 ==>
        var n := if size == 0 then 1 else size;
        && old(DirectPage(n)) != null
        && (r == Halted <==>
              old(DirectPage(n).freeList) == [] && (old(Stuck(ClassOfSize(n))) || (old(Asks(n)) && space == Stopped)))
        && (r == OutOfMemory <==> old(DirectPage(n).freeList) == [] && old(Asks(n)) && space == NoneLeft)
        && (old(DirectPage(n).freeList) == [] ==> Supplied(r, old(at), space, n, old(Sources(n))))
        && (old(DirectPage(n).freeList) != [] ==>
              && r.Got? && unchanged(this`lists, this`direct, this`loc, this`at) && live[r.ptr] == old(DirectPage(n))
              && r.ptr == old(DirectPage(n).freeList)[0]
              && old(DirectPage(n)).freeList == old(DirectPage(n).freeList)[1..]
              && old(DirectPage(n)).localList == old(DirectPage(n).localList))
    {
      hide *;
      ValidParts();
      NeedIs(size);
      SpaceIs(size, space);
      if size == 0 {
        SpaceIs(1, space);
        r := AllocSmall(1, space);
        if r.Got? {
          HoldsLess(r.ptr, 1, 0);
        }
      } else if size <= 1024 {
        r := AllocSmall(size, space);
      } else {
        NotDirect(size);
        r := AllocGeneric(size, space);
      }
      WholeAgain();
    }

    lemma NeedIs(size: nat)
      ensures size <= 1024 ==> Need(size) == 0x40_0000 && !SizeIsHuge(size)
      ensures Need(1) == 0x40_0000 && !SizeIsHuge(1)
      ensures |direct| == 128 || !AllDirect(direct)
    {
    }

    lemma HoldsLess(ptr: nat, size: nat, less: nat)
      requires Holds(ptr, size) && less <= size
      ensures Holds(ptr, less)
    {
    }

    lemma NotDirect(size: nat)
      requires size > 1024
      ensures !Stuck(ClassOfSize(size))
    {
      ClassOfSizeIs(size, ClassOfSize(size));
    }

    // ----- what holds of the blocks handed out, in every valid heap

    /** A block handed out is found from any address in it, and is aligned to its size. */
    lemma LiveBlock(b: nat)
      requires Valid() && b in live
      ensures var x := live[b]; var size := BlockSize(x.sizeClass, x.segment.size);
        && size > 0 && x.segment.base <= b && b + size <= x.segment.base + x.segment.size
        && x.segment.base in at && at[x.segment.base] == x.segment
        && b % (if x.sizeClass == HUGE_SENTINEL then 0x2000 else size) == 0
        && HasPage(b) && PageAt(b) == x && b in x.Blocks()
    {
      var x := live[b];
      ValidParts();
      InUseIfLive(x, b);
      Opening(x);
      OkPlaced(x, loc[x]);
      Found(x, b);
      SegmentShape(x.segment);
      hide *;
      BlockBounds(x.segment.base, x.segment.shift, x.index, x.sizeClass, b, x.segment.size);
      HomeIs(x);
    }

    /**
      What `alloc` promises about alignment: to the least power of two that is not below the size, up to 64; never
      to less than 8.
     */
    lemma Alignment(ptr: nat, size: nat)
      requires Valid() && Holds(ptr, size)
      ensures var least := SizeOfClass(ClassOfSize(if size < 64 then size else 64));
        ptr % least == 0 && (if size < 64 then size else 64) <= least
    {
      var x, small := live[ptr], if size < 64 then size else 64;
      LiveBlock(ptr);
      LivePlace(ptr);
      ClassOfSizeIs(small, ClassOfSize(small));
      assert SizeOfClass(3) == 64 && SizeOfClass(10) == 0x2000 by {
        Constants();
      }
      var c := if x.sizeClass == HUGE_SENTINEL then 10 else x.sizeClass;
      assert small <= SizeOfClass(c) && ptr % SizeOfClass(c) == 0 by {
        ValidOrHuge(x.segment.shift, x.index, x.sizeClass, x.segment.size);
      }
      hide *;
      ClassOfSizeIs(small, c);
      AlignedToSmaller(ptr, ClassOfSize(small), c);
    }

    lemma ValidOrHuge(shift: nat, i: nat, c: nat, size: nat)
      requires Placed(shift, i, c)
      ensures c == HUGE_SENTINEL || (ClassIsValid(c) && BlockSize(c, size) == SizeOfClass(c))
    {
    }

    /** The assertions on blocks, references and the index of a page hold for every page in use. */
    lemma PageAsserts(x: Page)
      requires Valid() && x in loc && loc[x] != Unused
      ensures x.index < 64 && RefIsValid(x.free) && RefIsValid(x.localFree)
      ensures forall b :: b in x.freeList || b in x.localList ==> b in x.words && RefIsValid(x.words[b])
      ensures forall b :: b in x.freeList || b in x.localList || b in x.handed ==>
        AddressOk(x.segment.base, x.segment.shift, x.index, x.sizeClass, b)
    {
      ValidParts();
      SaysNow(x);
      Opening(x);
      OkPlaced(x, loc[x]);
      SegmentBase(x);
      hide *;
      x.Asserts();
    }

    lemma SegmentBase(x: Page)
      requires SegmentOk(x.segment) && Placed(x.segment.shift, x.index, x.sizeClass)
      ensures BaseOk(x.segment.base) && x.index < 64
    {
    }

    lemma SegmentShape(s: Segment)
      requires SegmentOk(s)
      ensures if s.shift == 14 then s.size > 0x2000 else s.size == 0x40_0000
    {
    }

    lemma HomeIs(x: Page)
      requires Home(at, x)
      ensures x.segment.base in at && at[x.segment.base] == x.segment
    {
    }

    lemma BlockBounds(base: nat, shift: nat, i: nat, c: nat, b: nat, size: nat)
      requires BaseOk(base) && Placed(shift, i, c) && b in BlocksOf(base, shift, i, c)
      requires if shift == 14 then size > 0x2000 else size == 0x40_0000
      ensures BlockSize(c, size) > 0 && base <= b && b + BlockSize(c, size) <= base + size
      ensures b % (if c == HUGE_SENTINEL then 0x2000 else BlockSize(c, size)) == 0
    {
      if ClassIsValid(c) {
        BlockIn(base, shift, i, c, b);
        EndIsBelow(base, shift, i, c);
        ValidSize(shift, i, c, size);
        hide *;
      } else {
        HugeBounds(base, b, size);
      }
    }

    lemma ValidSize(shift: nat, i: nat, c: nat, size: nat)
      requires Placed(shift, i, c) && ClassIsValid(c)
      ensures BlockSize(c, size) == SizeOfClass(c) > 0 && c != HUGE_SENTINEL && shift != 14
    {
    }

    lemma HugeBounds(base: nat, b: nat, size: nat)
      requires BaseOk(base) && b in BlocksOf(base, 14, 0, HUGE_SENTINEL) && size > 0x2000
      ensures BlockSize(HUGE_SENTINEL, size) > 0 && base <= b && b + BlockSize(HUGE_SENTINEL, size) <= base + size
      ensures b % 0x2000 == 0
    {
    }

    /** No two blocks handed out overlap. */
    lemma NoOverlap(a: nat, b: nat)
      requires Valid() && a in live && b in live && a != b
      ensures a + BlockSize(live[a].sizeClass, live[a].segment.size) <= b
        || b + BlockSize(live[b].sizeClass, live[b].segment.size) <= a
    {
      var x, y := live[a], live[b];
      LiveBlock(a);
      LiveBlock(b);
      if x.segment == y.segment {
        SameSegment(a, b);
      } else {
        ValidParts();
        Extents(x.segment.base, y.segment.base);
      }
    }

    lemma Extents(a: nat, b: nat)
      requires Open(null) && a in at && b in at
      ensures at[a] == at[b] || a + at[a].size <= b || b + at[b].size <= a
    {
    }

    lemma SameSegment(a: nat, b: nat)
      requires Valid() && a in live && b in live && a != b && live[a].segment == live[b].segment
      ensures a + BlockSize(live[a].sizeClass, live[a].segment.size) <= b
        || b + BlockSize(live[b].sizeClass, live[b].segment.size) <= a
    {
      hide *;
      var x, y := live[a], live[b];
      LivePlace(a);
      LivePlace(b);
      TwoPlaces(x.segment.base, x.segment.shift, x.index, x.sizeClass, a, y.index, y.sizeClass, b);
      ValidSize(x.segment.shift, x.index, x.sizeClass, x.segment.size);
      ValidSize(y.segment.shift, y.index, y.sizeClass, y.segment.size);
      BlocksApart(x.segment.base, x.segment.shift, x.index, x.sizeClass, a, y.index, y.sizeClass, b);
    }

    /** Where a block handed out is. */
    lemma LivePlace(b: nat)
      requires Valid() && b in live
      ensures var x := live[b];
        && BaseOk(x.segment.base) && Placed(x.segment.shift, x.index, x.sizeClass)
        && b in BlocksOf(x.segment.base, x.segment.shift, x.index, x.sizeClass)
        && x.index < |x.segment.pages| && x.segment.pages[x.index] == x
    {
      var x := live[b];
      LiveBlock(b);
      ValidParts();
      InUseIfLive(x, b);
      Opening(x);
      OkPlaced(x, loc[x]);
      hide Valid, Open, Fits, PageOk, Placed, BlocksOf, PageAt;
    }

    /** Of two blocks in a segment, neither is huge. */
    lemma TwoPlaces(base: nat, shift: nat, i: nat, c: nat, a: nat, j: nat, d: nat, b: nat)
      requires Placed(shift, i, c) && Placed(shift, j, d) && (i == j ==> c == d) && a != b
      requires a in BlocksOf(base, shift, i, c) && b in BlocksOf(base, shift, j, d)
      ensures ClassIsValid(c) && ClassIsValid(d)
    {
      hide BlocksTo;
    }
  }

  // ----- the first heap

  /** The classes of `pages_direct` up to `c` have one page each, and their entries point to it. */
  ghost predicate OnePageEach(h: Heap, c: nat)
    reads h`lists, h`direct
  {
    && |h.direct| == 128
    && (forall d {:trigger Class(d)} :: 0 <= d < 8 ==>
          Class(d) in h.lists && |h.lists[Class(d)]| == if d < c then 1 else 0)
    && (forall i :: 0 <= i < 128 && ClassOfSize(SizeOfIndex(i)) < c <= 8 ==>
          h.direct[i] != null && h.lists[Class(ClassOfSize(SizeOfIndex(i)))] == [h.direct[i]])
  }

  lemma NoPageYet(h: Heap, l0: map<ListId, seq<Page>>)
    requires l0 == map l: ListId | l in AllLists() :: []
    requires Unused in h.lists && h.lists == l0[Unused := h.lists[Unused]] && h.direct == seq(128, i => null)
    ensures OnePageEach(h, 0)
  {
  }

  /** One more class has its page. */
  lemma OneMoreClass(h: Heap, l0: map<ListId, seq<Page>>, was: seq<Page?>, c: nat, p: Page)
    requires c < 8 && Class(c) in l0 && Unused in h.lists
    requires h.lists == l0[Unused := h.lists[Unused]][Class(c) := l0[Class(c)] + [p]]
    requires h.Redirected(was, c, h.lists[Class(c)][0])
    requires forall d {:trigger Class(d)} :: 0 <= d < 8 ==> Class(d) in l0 && |l0[Class(d)]| == if d < c then 1 else 0
    requires forall i :: 0 <= i < 128 && ClassOfSize(SizeOfIndex(i)) < c ==>
      was[i] != null && l0[Class(ClassOfSize(SizeOfIndex(i)))] == [was[i]]
    ensures OnePageEach(h, c + 1)
  {
    SmallIsDirect(c);
    hide ClassOfSize, SizeOfIndex, InPagesDirect;
    assert h.lists[Class(c)] == [p];
    forall i | 0 <= i < 128 && ClassOfSize(SizeOfIndex(i)) < c + 1
      ensures h.direct[i] != null && h.lists[Class(ClassOfSize(SizeOfIndex(i)))] == [h.direct[i]]
    {
      var d := ClassOfSize(SizeOfIndex(i));
      assert d < c ==> h.lists[Class(d)] == l0[Class(d)];
    }
  }

  lemma SmallIsDirect(c: nat)
    requires c < 8
    ensures InPagesDirect(c)
  {
    assert SizeOfClass(7) == 1024;
    if c < 7 {
      SizesGrow(c, 7);
    }
  }

  lemma RoomInEmpty(base: nat)
    requires BaseOk(base)
    ensures Heap.RoomFor(map[], base, 0x40_0000)
  {
  }

  lemma AllSet(h: Heap)
    requires OnePageEach(h, 8)
    ensures Heap.AllDirect(h.direct)
  {
    forall i | 0 <= i < 128
      ensures h.direct[i] != null
    {
      DirectIndexClass(SizeOfIndex(i));
    }
  }

  lemma EachHas(h: Heap, c: nat)
    requires OnePageEach(h, c)
    ensures |h.direct| == 128
    ensures forall d {:trigger Class(d)} :: 0 <= d < 8 ==>
      Class(d) in h.lists && |h.lists[Class(d)]| == if d < c then 1 else 0
    ensures forall i :: 0 <= i < 128 && ClassOfSize(SizeOfIndex(i)) < c <= 8 ==>
      h.direct[i] != null && h.lists[Class(ClassOfSize(SizeOfIndex(i)))] == [h.direct[i]]
  {
  }

  /** `heap_init`, with the memory of its first segment at `base`: its assertions hold. */
  method InitHeap(base: nat) returns (heap: Heap)
    requires BaseOk(base)
    ensures fresh(heap) && heap.Valid() && heap.live == map[] && OnePageEach(heap, 8)
    ensures fresh(heap.loc.Keys) && fresh(heap.at.Values)
  {
    hide *;
    heap := new Heap();
    ghost var l0 := heap.lists;
    RoomInEmpty(base);
    heap.NewSmallSegment(base);
    NoPageYet(heap, l0);
    for c := 0 to 8
      invariant heap.Open(null) && heap.live == map[] && OnePageEach(heap, c)
      invariant fresh(heap.loc.Keys) && fresh(heap.at.Values) && fresh(heap)
      invariant Unused in heap.lists && |heap.lists[Unused]| == 64 - c
    {
      ghost var l, was := heap.lists, heap.direct;
      EachHas(heap, c);
      var page, _ := heap.PageNewSmall(c, NoneLeft);
      assert page != null;
      OneMoreClass(heap, l, was, c, page);
    }
    AllSet(heap);
    heap.WholeAgain();
  }
}
