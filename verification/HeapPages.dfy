/** `mm/alloc/page.c` and `mm/alloc/block.c`: one heap page and the lists of its blocks. */
module HeapPages {
  import opened Integers
  import opened Align
  import opened ExclusiveOr
  import opened SizeClasses

  // ----- lists of blocks, linked through the blocks by references that are masked with the cookie

  /** `block_ref_make`, with 0 for the null pointer. */
  function RefMake(addr: nat, cookie: nat): nat { Xor(addr, cookie) }

  /** `block_ref_deref`. */
  function Deref(ref: nat, cookie: nat): nat { Xor(ref, cookie) }

  /** Following the references from `ref` on yields exactly these blocks. */
  ghost predicate Chain(words: map<nat, nat>, cookie: nat, ref: nat, list: seq<nat>)
    decreases list
  {
    if list == [] then ref == RefMake(0, cookie)
    else
      && ref == RefMake(list[0], cookie) && list[0] > 0 && list[0] in words
      && Chain(words, cookie, words[list[0]], list[1..])
  }

  lemma {:induction false} ChainFrame(words: map<nat, nat>, cookie: nat, ref: nat, list: seq<nat>, b: nat, x: nat)
    requires Chain(words, cookie, ref, list) && b !in list
    ensures Chain(words[b := x], cookie, ref, list)
    decreases list
  {
    if list != [] {
      ChainFrame(words, cookie, words[list[0]], list[1..], b, x);
    }
  }

  /** The head of a chain. */
  lemma ChainHead(words: map<nat, nat>, cookie: nat, ref: nat, list: seq<nat>)
    requires Chain(words, cookie, ref, list)
    ensures Deref(ref, cookie) == if list == [] then 0 else list[0]
  {
    XorTwice(if list == [] then 0 else list[0], cookie);
  }

  /** What holds for every reference in a page, and is asserted whenever one is made or followed. */
  predicate RefIsValid(ref: nat) { ref % 8 == 7 }

  lemma RefsAreValid(addr: nat, cookie: nat)
    requires addr % 8 == 0 && cookie % 8 == 7
    ensures RefIsValid(RefMake(addr, cookie))
  {
    XorLow3(addr, cookie);
  }

  // ----- where the blocks are

  /** `page_bounds`, for a page of a segment at `base`. */
  function PageStart(base: nat, shift: nat, i: nat): nat {
    base + i * Pow2(shift) + if i == 0 then 0x2000 else 0
  }

  function PageEnd(base: nat, shift: nat, i: nat): nat {
    base + (i + 1) * Pow2(shift)
  }

  /** The blocks of `size` bytes from `first` on and before `end`. */
  ghost predicate IsBlock(b: nat, first: nat, size: nat)
    requires size > 0
  {
    first <= b && (b - first) % size == 0
  }

  ghost function BlocksTo(first: nat, size: nat, end: nat): set<nat>
    requires size > 0
  {
    set b: nat | first <= b < end && IsBlock(b, first, size)
  }

  lemma OneMore(first: nat, size: nat, b: nat)
    requires size > 0 && IsBlock(b, first, size)
    ensures IsBlock(b + size, first, size)
    ensures BlocksTo(first, size, b + size) == BlocksTo(first, size, b) + {b} && b !in BlocksTo(first, size, b)
  {
    var q := (b - first) / size;
    assert b + size - first == size * (q + 1) + 0;
    Quotient(size, q + 1, 0);
    forall a: nat | b < a < b + size
      ensures !IsBlock(a, first, size)
    {
      Quotient(size, q, a - b);
      assert a - first == size * q + (a - b);
    }
  }

  /** Segments lie at multiples of 4 MiB in the top 2^56 bytes of the address space. */
  predicate BaseOk(base: nat) {
    base % 0x40_0000 == 0 && 0xff00_0000_0000_0000 <= base && base + 0x40_0000 <= 0x1_0000_0000_0000_0000
  }

  /** Which pages hold which classes: 64 of 64 KiB for small ones, one of 4 MiB for a large one. */
  predicate Placed(shift: nat, i: nat, c: nat) {
    if ClassIsSmall(c) then shift == 16 && i < 64
    else if ClassIsValid(c) then shift == 22 && i == 0
    else shift == 14 && i == 0 && c == HUGE_SENTINEL
  }

  function FirstBlock(base: nat, shift: nat, i: nat, c: nat): nat {
    var start, size := PageStart(base, shift, i), SizeOfClass(c);
    (start + size - 1) / size * size
  }

  lemma {:induction false} SizeRatio(a: nat, b: nat) returns (q: nat)
    requires a <= b
    ensures SizeOfClass(b) == SizeOfClass(a) * q && q > 0
  {
    if a == b {
      q := 1;
    } else {
      var r := SizeRatio(a, b - 1);
      q := 2 * r;
    }
  }

  /** What is aligned to the size of a class is aligned to those of smaller classes. */
  lemma AlignedToSmaller(x: nat, c: nat, d: nat)
    requires c <= d && x % SizeOfClass(d) == 0
    ensures x % SizeOfClass(c) == 0
  {
    var q := SizeRatio(c, d);
    hide *;
    MultipleOf(x, SizeOfClass(c), q, SizeOfClass(d));
  }

  lemma MultipleOf(x: nat, m: nat, q: nat, s: nat)
    requires m > 0 && s > 0 && s == m * q && x % s == 0
    ensures x % m == 0
  {
    var n := x / s;
    assert x == s * n;
    assert (m * q) * n == m * (q * n);
    Quotient(m, q * n, 0);
  }

  lemma RoundUp(size: nat, q: nat, r: nat)
    requires 0 < r <= size
    ensures (size * q + r + size - 1) / size * size == size * (q + 1)
  {
    Quotient(size, q + 1, r - 1);
    assert size * q + r + size - 1 == size * (q + 1) + (r - 1);
  }

  /** A number that is a multiple of a large size, rounded up to a smaller one. */
  lemma AlreadyRound(c: nat, d: nat, x: nat, k: nat) returns (q: nat)
    requires c <= d && x == SizeOfClass(d) * k
    ensures x == SizeOfClass(c) * q && (x + SizeOfClass(c) - 1) / SizeOfClass(c) * SizeOfClass(c) == x
  {
    var size := SizeOfClass(c);
    var r := SizeRatio(c, d);
    q := r * k;
    assert x == size * q by {
      assert size * r * k == size * (r * k);
    }
    Quotient(size, q, size - 1);
    assert x + size - 1 == size * q + (size - 1);
  }

  /** What the sizes of the classes and the pages are, where it matters. */
  lemma Constants()
    ensures SizeOfClass(10) == 0x2000 && SizeOfClass(11) == 0x4000 && SizeOfClass(13) == 0x1_0000
    ensures SizeOfClass(16) == 0x8_0000 && SizeOfClass(19) == 0x40_0000
    ensures Pow2(16) == 0x1_0000 && Pow2(22) == 0x40_0000
  {
    assert SizeOfClass(5) == 0x100;
    assert SizeOfClass(10) == 0x2000;
    assert SizeOfClass(13) == 0x1_0000;
    assert SizeOfClass(16) == 0x8_0000;
    assert Pow2(8) == 0x100;
    assert Pow2(16) == 0x1_0000;
  }

  /** Where the blocks of a page begin. */
  lemma FirstIs(base: nat, shift: nat, i: nat, c: nat) returns (q: nat)
    requires BaseOk(base) && Placed(shift, i, c) && ClassIsValid(c)
    ensures FirstBlock(base, shift, i, c) == SizeOfClass(c) * q == base +
      if i > 0 then i * 0x1_0000 else if ClassIsSmall(c) then 0x2000 else SizeOfClass(c)
  {
    StartIs(base, shift, i, c);
    Parts(base);
    if i > 0 {
      q := RoundStart(base, shift, i, c, 13, base + i * 0x1_0000, base / 0x1_0000 + i);
    } else if ClassIsSmall(c) {
      q := RoundStart(base, shift, i, c, 10, base + 0x2000, base / 0x2000 + 1);
    } else {
      q := FirstOfLarge(base, shift, i, c);
    }
  }

  /** The address of a segment is a multiple of the larger sizes. */
  lemma Parts(base: nat)
    requires BaseOk(base)
    ensures base == SizeOfClass(13) * (base / 0x1_0000) && base == SizeOfClass(10) * (base / 0x2000)
    ensures base == SizeOfClass(19) * (base / 0x40_0000)
    ensures SizeOfClass(13) == 0x1_0000 && SizeOfClass(10) == 0x2000 && SizeOfClass(19) == 0x40_0000
  {
    Constants();
    hide SizeOfClass;
    Divided(base);
  }

  lemma Divided(base: nat)
    requires base % 0x40_0000 == 0
    ensures base == 0x1_0000 * (base / 0x1_0000) && base == 0x2000 * (base / 0x2000)
    ensures base == 0x40_0000 * (base / 0x40_0000)
  {
    var k := base / 0x40_0000;
    assert base / 0x1_0000 == 0x40 * k;
    assert base / 0x2000 == 0x200 * k;
  }

  /** The start of the page is a multiple of the size of the blocks already. */
  lemma RoundStart(base: nat, shift: nat, i: nat, c: nat, d: nat, start: nat, k: nat) returns (q: nat)
    requires c <= d && PageStart(base, shift, i) == start == SizeOfClass(d) * k
    ensures FirstBlock(base, shift, i, c) == start == SizeOfClass(c) * q
  {
    hide SizeOfClass, PageStart;
    q := AlreadyRound(c, d, start, k);
  }

  lemma FirstOfLarge(base: nat, shift: nat, i: nat, c: nat) returns (q: nat)
    requires BaseOk(base) && PageStart(base, shift, i) == base + 0x2000 && ClassIsValid(c) && !ClassIsSmall(c)
    ensures FirstBlock(base, shift, i, c) == SizeOfClass(c) * q == base + SizeOfClass(c)
  {
    Parts(base);
    SizesOf(c);
    hide SizeOfClass, PageStart;
    var size := SizeOfClass(c);
    var k := AlreadyRound(c, 19, base, base / 0x40_0000);
    RoundUp(size, k, 0x2000);
    q := k + 1;
    assert size * (k + 1) == size * k + size;
  }

  /** Where they end. */
  lemma EndIs(base: nat, shift: nat, i: nat, c: nat) returns (q: nat)
    requires BaseOk(base) && Placed(shift, i, c) && ClassIsValid(c)
    ensures PageEnd(base, shift, i) == SizeOfClass(c) * q
      == base + if ClassIsSmall(c) then (i + 1) * 0x1_0000 else 0x40_0000
  {
    Constants();
    EndMultiples(base, i);
    hide SizeOfClass, Pow2;
    if ClassIsSmall(c) {
      q := AlreadyRound(c, 13, base + (i + 1) * 0x1_0000, base / 0x1_0000 + i + 1);
    } else {
      q := AlreadyRound(c, 19, base + 0x40_0000, base / 0x40_0000 + 1);
    }
  }

  lemma EndMultiples(base: nat, i: nat)
    requires BaseOk(base)
    ensures base + (i + 1) * 0x1_0000 == 0x1_0000 * (base / 0x1_0000 + i + 1)
    ensures base + 0x40_0000 == 0x40_0000 * (base / 0x40_0000 + 1)
  {
    Divided(base);
  }

  lemma SizesOf(c: nat)
    requires ClassIsValid(c)
    ensures SizeOfClass(c) % 8 == 0
    ensures if ClassIsSmall(c) then SizeOfClass(c) <= 0x2000 else 0x4000 <= SizeOfClass(c) <= 0x8_0000
  {
    Constants();
    SizesAreEights(c);
    hide SizeOfClass;
    if c < 10 {
      SizesGrow(c, 10);
    } else if c < 16 {
      SizesGrow(c, 16);
    }
    if c > 11 {
      SizesGrow(11, c);
    }
  }

  lemma Multiples(size: nat, f: int, e: int)
    requires size > 0 && size % 8 == 0 && f >= 0 && e >= 0 && size * f < size * e
    ensures size * f % size == 0 && size * f % 8 == 0 && IsBlock(size * e, size * f, size)
  {
    assert size * e - size * f == size * (e - f) + 0;
    MulAtLeast(size, e - f);
    Quotient(size, e - f, 0);
    Quotient(size, f, 0);
    EightDivides(size, f);
  }

  /** The blocks of a page begin after its header and fill it to its end; there are at least two. */
  lemma Geometry(base: nat, shift: nat, i: nat, c: nat)
    requires BaseOk(base) && Placed(shift, i, c) && ClassIsValid(c)
    ensures var size, first, end := SizeOfClass(c), FirstBlock(base, shift, i, c), PageEnd(base, shift, i);
      && PageStart(base, shift, i) <= first && first + size < end && IsBlock(end, first, size)
      && first % size == 0 && first % 8 == 0 && size % 8 == 0 && size <= 0x8_0000 && end <= base + 0x40_0000
      && first > 0
  {
    var f := FirstIs(base, shift, i, c);
    var e := EndIs(base, shift, i, c);
    SizesOf(c);
    StartIs(base, shift, i, c);
    hide *;
    Multiples(SizeOfClass(c), f, e);
  }

  lemma StartIs(base: nat, shift: nat, i: nat, c: nat)
    requires Placed(shift, i, c) && ClassIsValid(c)
    ensures PageStart(base, shift, i) == base + if i > 0 then i * 0x1_0000 else 0x2000
    ensures if ClassIsSmall(c) then i < 64 else i == 0
  {
    Constants();
  }

  /** `page_in_bounds`; the page records lie in the first 4 KiB of the segment. */
  predicate InBounds(base: nat, shift: nat, i: nat, c: nat, addr: nat) {
    if c == HUGE_SENTINEL then addr == base + 0x2000
    else PageStart(base, shift, i) <= addr < PageEnd(base, shift, i)
  }

  /** What `block_ref_make` and `block_ref_deref` assert about the address of a block. */
  predicate AddressOk(base: nat, shift: nat, i: nat, c: nat, addr: nat) {
    InBounds(base, shift, i, c, addr) && addr % 8 == 0 && addr / 0x100_0000_0000_0000 == 0xff
  }

  /** Every block of a page meets those assertions. */
  lemma BlockAsserts(base: nat, shift: nat, i: nat, c: nat, b: nat)
    requires BaseOk(base) && Placed(shift, i, c) && b in BlocksOf(base, shift, i, c)
    ensures AddressOk(base, shift, i, c, b)
  {
    if ClassIsValid(c) {
      BlockIn(base, shift, i, c, b);
      StartIs(base, shift, i, c);
      SizesOf(c);
      hide PageStart, PageEnd, SizeOfClass, BlocksOf, Placed;
    }
  }

  /** Every reference of a chain meets the assertion on its low bits. */
  lemma {:induction false} ChainAsserts(words: map<nat, nat>, cookie: nat, ref: nat, list: seq<nat>)
    requires Chain(words, cookie, ref, list) && cookie % 8 == 7 && forall b :: b in list ==> b % 8 == 0
    ensures RefIsValid(ref) && forall b :: b in list ==> b in words && RefIsValid(words[b])
    decreases list
  {
    if list == [] {
      RefsAreValid(0, cookie);
    } else {
      assert list[0] in list && forall b :: b in list[1..] ==> b in list;
      RefsAreValid(list[0], cookie);
      ChainAsserts(words, cookie, words[list[0]], list[1..]);
    }
  }

  // ----- from a block back to its page

  /** `segment_of_ptr`. */
  function SegmentOf(ptr: nat): nat { ptr / 0x40_0000 * 0x40_0000 }

  /** The index that `page_of_ptr` computes. */
  function PageIndexOf(ptr: nat, shift: nat): int {
    (ptr - SegmentOf(ptr)) / Pow2(shift)
  }

  /** The blocks of a page, by the address of its segment, its index and its class. */
  ghost function BlocksOf(base: nat, shift: nat, i: nat, c: nat): set<nat> {
    if c == HUGE_SENTINEL then {base + 0x2000}
    else BlocksTo(FirstBlock(base, shift, i, c), SizeOfClass(c), PageEnd(base, shift, i))
  }

  /** How many bytes a block has; a huge one reaches to the end of its segment. */
  function BlockSize(c: nat, segmentSize: nat): int {
    if c == HUGE_SENTINEL then segmentSize - 0x2000 else SizeOfClass(c)
  }

  lemma {:induction false} WithinOne(first: nat, size: nat, a: nat, b: nat)
    requires size > 0 && IsBlock(a, first, size) && IsBlock(b, first, size) && a < b
    ensures a + size <= b
  {
    var p, q := (a - first) / size, (b - first) / size;
    assert a - first == size * p && b - first == size * q;
    assert (b - first) - (a - first) == size * (q - p);
    MulAtLeast(size, q - p);
  }

  /** A block lies inside its page, is aligned to its size, and has a valid reference. */
  lemma BlockIn(base: nat, shift: nat, i: nat, c: nat, b: nat)
    requires BaseOk(base) && Placed(shift, i, c) && ClassIsValid(c) && b in BlocksOf(base, shift, i, c)
    ensures PageStart(base, shift, i) <= b && b + SizeOfClass(c) <= PageEnd(base, shift, i) <= base + 0x40_0000
    ensures b % SizeOfClass(c) == 0 && b % 8 == 0
  {
    Geometry(base, shift, i, c);
    InBlocks(base, shift, i, c, b);
    hide *;
    WithinOne(FirstBlock(base, shift, i, c), SizeOfClass(c), b, PageEnd(base, shift, i));
    BlockAligned(FirstBlock(base, shift, i, c), SizeOfClass(c), b);
  }

  lemma InBlocks(base: nat, shift: nat, i: nat, c: nat, b: nat)
    requires ClassIsValid(c)
    ensures b in BlocksOf(base, shift, i, c) <==>
      b < PageEnd(base, shift, i) && IsBlock(b, FirstBlock(base, shift, i, c), SizeOfClass(c))
    ensures b in BlocksOf(base, shift, i, c) ==> FirstBlock(base, shift, i, c) <= b
  {
  }

  lemma BlockAligned(first: nat, size: nat, b: nat)
    requires size > 0 && size % 8 == 0 && first % size == 0 && IsBlock(b, first, size)
    ensures b % size == 0 && b % 8 == 0
  {
    var q, k := (b - first) / size, first / size;
    assert b - first == size * q && first == size * k;
    SumOfMultiples(size, k, q);
    Quotient(size, k + q, 0);
    EightDivides(size, k + q);
  }

  lemma SumOfMultiples(size: nat, k: nat, q: nat)
    ensures size * k + size * q == size * (k + q) + 0
  {
  }

  lemma EightDivides(size: nat, n: nat)
    requires size % 8 == 0
    ensures size * n % 8 == 0
  {
    var h := size / 8;
    assert size * n == 8 * (h * n) by {
      assert size == 8 * h;
    }
  }

  lemma IndexIs(off: nat, span: nat, i: nat)
    requires i * span <= off < (i + 1) * span
    ensures off / span == i
  {
    Quotient(span, i, off - i * span);
  }

  lemma SegmentIs(base: nat, ptr: nat)
    requires BaseOk(base) && base <= ptr < base + 0x40_0000
    ensures SegmentOf(ptr) == base
  {
  }

  /** `page_of_ptr` on any address inside a block gives the page and the segment of the block. */
  lemma PageOfPtr(base: nat, shift: nat, i: nat, c: nat, b: nat, ptr: nat)
    requires BaseOk(base) && Placed(shift, i, c) && b in BlocksOf(base, shift, i, c)
    requires if ClassIsValid(c) then b <= ptr < b + SizeOfClass(c) else ptr == b
    ensures SegmentOf(ptr) == base && PageIndexOf(ptr, shift) == i
  {
    if ClassIsValid(c) {
      BlockIn(base, shift, i, c, b);
      EndIsBelow(base, shift, i, c);
      hide *;
      SegmentIs(base, ptr);
      IndexIs(ptr - base, Pow2(shift), i);
    } else {
      assert Pow2(14) == 0x4000;
      SegmentIs(base, ptr);
    }
  }

  lemma EndIsBelow(base: nat, shift: nat, i: nat, c: nat)
    requires Placed(shift, i, c) && ClassIsValid(c) && BaseOk(base)
    ensures PageStart(base, shift, i) >= base + i * Pow2(shift)
    ensures PageEnd(base, shift, i) == base + (i + 1) * Pow2(shift)
    ensures PageEnd(base, shift, i) <= base + 0x40_0000
    ensures Pow2(shift) == if ClassIsSmall(c) then 0x1_0000 else 0x40_0000
  {
    Constants();
  }

  /** Blocks of different pages of a segment, and different blocks of one page, do not overlap. */
  lemma BlocksApart(base: nat, shift: nat, i: nat, c: nat, a: nat, j: nat, d: nat, b: nat)
    requires BaseOk(base) && Placed(shift, i, c) && Placed(shift, j, d) && ClassIsValid(c) && ClassIsValid(d)
    requires a in BlocksOf(base, shift, i, c) && b in BlocksOf(base, shift, j, d) && (i == j ==> c == d) && a != b
    ensures a + SizeOfClass(c) <= b || b + SizeOfClass(d) <= a
  {
    BlockIn(base, shift, i, c, a);
    BlockIn(base, shift, j, d, b);
    EndIsBelow(base, shift, i, c);
    EndIsBelow(base, shift, j, d);
    if i == j {
      WithinOne(FirstBlock(base, shift, i, c), SizeOfClass(c), if a < b then a else b, if a < b then b else a);
    }
  }

  /** A fresh 64-bit random number. */
  method Random() returns (r: u64)
  {
    r := *;
  }

  method RandomBelow(n: nat) returns (i: nat)
    requires n > 0
    ensures i < n
  {
    var random := Random();
    i := random % n;
  }

  /** The part of `struct mm_alloc_segment` that its pages look at. */
  class Segment {
    const base: nat
    const shift: nat
    const size: nat
    var usedPages: nat
    var pages: seq<Page>

    /** The part that `segment_init_small`, `segment_init_large` and `segment_init_huge` share. */
    constructor (base: nat, shift: nat, size: nat)
      ensures this.base == base && this.shift == shift && this.size == size && usedPages == 0 && pages == []
    {
      this.base, this.shift, this.size := base, shift, size;
      usedPages, pages := 0, [];
    }
  }

  /** `struct mm_alloc_page`, with the first words of its blocks. */
  class Page {
    const segment: Segment
    const index: nat
    var free: nat
    var localFree: nat
    var usedBlocks: nat
    var cookie: nat
    var sizeClass: nat
    var inFullList: bool
    var words: map<nat, nat>

    /** The blocks of the two lists, and those handed out. */
    ghost var freeList: seq<nat>
    ghost var localList: seq<nat>
    ghost var handed: set<nat>

    constructor (segment: Segment, index: nat)
      ensures this.segment == segment && this.index == index
      ensures usedBlocks == 0 && !inFullList && handed == {}
    {
      this.segment, this.index := segment, index;
      free, localFree, usedBlocks, cookie, sizeClass, inFullList, words := 0, 0, 0, 0, 0, false, map[];
      freeList, localList, handed := [], [], {};
    }

    ghost function Blocks(): set<nat>
      reads this`sizeClass
    {
      BlocksOf(segment.base, segment.shift, index, sizeClass)
    }

    /** The two lists are well-formed, and every block is in one of them or handed out, and only once. */
    ghost predicate ListsOk()
      reads this`cookie, this`words, this`free, this`freeList, this`localFree, this`localList, this`handed
      reads this`sizeClass
    {
      && cookie % 8 == 7 && cookie < 0x100_0000_0000_0000
      && Chain(words, cookie, free, freeList) && Chain(words, cookie, localFree, localList)
      && multiset(freeList) + multiset(localList) + multiset(handed) == multiset(Blocks())
    }

    ghost predicate Valid()
      reads this`cookie, this`words, this`free, this`freeList, this`localFree, this`localList, this`handed
      reads this`sizeClass
      reads this`usedBlocks
    {
      ListsOk() && usedBlocks == |handed|
    }

    /**
      The assertions of `block_ref_make` and `block_ref_deref` hold for the heads of the two lists, for the
      references in their blocks, and for all blocks in the lists or handed out.
     */
    lemma Asserts()
      requires ListsOk() && BaseOk(segment.base) && Placed(segment.shift, index, sizeClass)
      ensures RefIsValid(free) && RefIsValid(localFree)
      ensures forall b :: b in freeList || b in localList ==> b in words && RefIsValid(words[b])
      ensures forall b :: b in freeList || b in localList || b in handed ==>
        AddressOk(segment.base, segment.shift, index, sizeClass, b)
    {
      forall b | b in freeList || b in localList || b in handed
        ensures AddressOk(segment.base, segment.shift, index, sizeClass, b)
      {
        assert b in multiset(freeList) + multiset(localList) + multiset(handed);
        assert b in multiset(Blocks());
        BlockAsserts(segment.base, segment.shift, index, sizeClass, b);
      }
      hide InBounds;
      ChainAsserts(words, cookie, free, freeList);
      ChainAsserts(words, cookie, localFree, localList);
    }

    /** `page_free_pop`: 0 stands for the null pointer. */
    method FreePop() returns (block: nat)
      requires ListsOk()
      modifies this
      ensures ListsOk() && usedBlocks == old(usedBlocks) && sizeClass == old(sizeClass) && inFullList == old(inFullList)
      ensures cookie == old(cookie) && localList == old(localList)
      ensures if old(freeList) == [] then block == 0 && unchanged(this)
              else block == old(freeList)[0] && freeList == old(freeList)[1..] && handed == old(handed) + {block}
                   && block !in old(handed) && block in Blocks() && block > 0
    {
      ChainHead(words, cookie, free, freeList);
      block := Deref(free, cookie);
      if block == 0 {
        return;
      }
      Popped(freeList, localList, handed, Blocks());
      free := words[block];
      freeList := freeList[1..];
      handed := handed + {block};
    }

    /** `page_local_free_push`: a block that was handed out comes back. */
    method LocalFreePush(block: nat)
      requires Valid() && block in handed && block > 0
      modifies this
      ensures Valid() && sizeClass == old(sizeClass) && inFullList == old(inFullList) && cookie == old(cookie)
      ensures handed == old(handed) - {block} && localList == [block] + old(localList) && freeList == old(freeList)
      ensures usedBlocks == old(usedBlocks) - 1
    {
      PushedBack(freeList, localList, handed, Blocks(), block);
      ChainFrame(words, cookie, free, freeList, block, localFree);
      ChainFrame(words, cookie, localFree, localList, block, localFree);
      words := words[block := localFree];
      localFree := RefMake(block, cookie);
      localList := [block] + localList;
      assert localList[1..] == old(localList);
      handed := handed - {block};
      usedBlocks := usedBlocks - 1;
    }

    /** `page_collect`: when nothing is left to allocate, what was freed becomes allocatable. */
    method Collect()
      requires Valid()
      modifies this
      ensures Valid() && sizeClass == old(sizeClass) && inFullList == old(inFullList) && cookie == old(cookie)
      ensures handed == old(handed) && usedBlocks == old(usedBlocks)
      ensures if old(freeList) != [] then freeList == old(freeList) && localList == old(localList)
              else freeList == old(localList) && localList == []
    {
      ChainHead(words, cookie, free, freeList);
      if Deref(free, cookie) != 0 {
        return;
      }
      free := localFree;
      localFree := RefMake(0, cookie);
      freeList, localList := localList, [];
    }

    /** `page_is_full`. */
    method IsFull() returns (full: bool)
      requires Valid()
      ensures full <==> freeList == []
    {
      ChainHead(words, cookie, free, freeList);
      full := Deref(free, cookie) == 0;
    }

    /** `page_free_push`, while the free list is being built. */
    method FreePush(block: nat)
      requires Chain(words, cookie, free, freeList) && block !in freeList && block > 0
      modifies this`words, this`free, this`freeList
      ensures Chain(words, cookie, free, freeList) && freeList == [block] + old(freeList)
    {
      ChainFrame(words, cookie, free, freeList, block, free);
      words := words[block := free];
      free := RefMake(block, cookie);
      freeList := [block] + freeList;
      assert freeList[1..] == old(freeList);
    }

    /** `heap_push_unused_page` clears the record of the page. */
    method Clear()
      modifies this
      ensures usedBlocks == 0 && !inFullList && handed == {} && sizeClass == 0
    {
      free, localFree, usedBlocks, cookie, sizeClass, inFullList, words := 0, 0, 0, 0, 0, false, map[];
      freeList, localList, handed := [], [], {};
    }

    /** `page_init_common`. */
    method InitCommon(c: nat)
      modifies this
      ensures cookie % 8 == 7 && cookie < 0x100_0000_0000_0000 && sizeClass == c && !inFullList && usedBlocks == 0
      ensures freeList == [] && localList == [] && handed == {}
      ensures Chain(words, cookie, free, []) && Chain(words, cookie, localFree, [])
    {
      hide Xor;
      var random := Random();
      CookieOk(random);
      cookie := random % 0x100_0000_0000_0000 / 8 * 8 + 7;
      free, localFree := RefMake(0, cookie), RefMake(0, cookie);
      usedBlocks, sizeClass, inFullList := 0, c, false;
      freeList, localList, handed := [], [], {};
    }

    /** What the lists are while `pending` blocks still have to be pushed. */
    ghost predicate Building(pending: multiset<nat>, all: set<nat>)
      reads this
    {
      Chain(words, cookie, free, freeList) && multiset(freeList) + pending == multiset(all) && 0 !in all
    }

    /** A pending block is pushed. */
    method PushPending(block: nat, ghost pending: multiset<nat>, ghost all: set<nat>)
      requires Building(pending, all) && block in pending
      modifies this`words, this`free, this`freeList
      ensures Building(pending - multiset{block}, all)
    {
      Pending(freeList, pending, all, block);
      FreePush(block);
    }

    lemma FillBounds(c: nat)
      requires BaseOk(segment.base) && Placed(segment.shift, index, c) && ClassIsValid(c)
      ensures var first := FirstBlock(segment.base, segment.shift, index, c);
        var end := PageEnd(segment.base, segment.shift, index);
        && 0 < first < end && IsBlock(end, first, SizeOfClass(c)) && 0 !in BlocksTo(first, SizeOfClass(c), end)
      ensures c != HUGE_SENTINEL
    {
      Geometry(segment.base, segment.shift, index, c);
      hide SizeOfClass, FirstBlock, PageEnd, IsBlock;
    }

    /** Before the first push, all the blocks in the buffer are pending. */
    lemma Begins(buffer: multiset<nat>, first: nat, size: nat, cursor: nat)
      requires Chain(words, cookie, free, []) && freeList == [] && first > 0 && size > 0
      requires buffer == multiset(BlocksTo(first, size, cursor))
      ensures Building(buffer, BlocksTo(first, size, cursor))
    {
    }

    lemma Ends(c: nat)
      requires ClassIsValid(c) && sizeClass == c && cookie % 8 == 7 && cookie < 0x100_0000_0000_0000
      requires localList == [] && handed == {} && usedBlocks == 0 && Chain(words, cookie, localFree, [])
      requires Building(multiset{}, BlocksTo(FirstBlock(segment.base, segment.shift, index, c), SizeOfClass(c),
                                             PageEnd(segment.base, segment.shift, index)))
      requires FirstBlock(segment.base, segment.shift, index, c) < PageEnd(segment.base, segment.shift, index)
      ensures Valid() && multiset(freeList) == multiset(Blocks()) && freeList != []
    {
      var first := FirstBlock(segment.base, segment.shift, index, c);
      assert IsBlock(first, first, SizeOfClass(c));
      assert first in multiset(BlocksTo(first, SizeOfClass(c), PageEnd(segment.base, segment.shift, index)));
    }

    lemma Advances(was: seq<nat>, i: nat, first: nat, size: nat, cursor: nat)
      requires i < |was| && size > 0 && IsBlock(cursor, first, size) && first > 0
      requires Building(multiset(was) - multiset{was[i]}, BlocksTo(first, size, cursor))
      ensures Building(multiset(was[i := cursor]), BlocksTo(first, size, cursor + size))
    {
      OneMore(first, size, cursor);
      Replaced(multiset(freeList), was, i, cursor, BlocksTo(first, size, cursor));
    }

    /** The first loop of `page_init_small_or_large`: up to 16 blocks wait in the buffer. */
    method FillBuffer(blocks: array<nat>, first: nat, size: nat, end: nat) returns (len: nat, cursor: nat)
      requires blocks.Length == 16 && size > 0 && first <= end && IsBlock(end, first, size)
      modifies blocks
      ensures len <= 16 && IsBlock(cursor, first, size) && cursor <= end && (len < 16 ==> cursor == end)
      ensures multiset(blocks[..len]) == multiset(BlocksTo(first, size, cursor))
    {
      len, cursor := 0, first;
      while len < 16
        invariant len <= 16 && IsBlock(cursor, first, size) && cursor <= end
        invariant multiset(blocks[..len]) == multiset(BlocksTo(first, size, cursor))
      {
        if cursor == end {
          break;
        }
        OneMore(first, size, cursor);
        WithinOne(first, size, cursor, end);
        blocks[len] := cursor;
        assert blocks[..len + 1] == blocks[..len] + [cursor];
        len, cursor := len + 1, cursor + size;
      }
    }

    /** The buffered path: a random block of the buffer is pushed and replaced by the next one. */
    method PushBuffered(blocks: array<nat>, first: nat, size: nat, end: nat, from: nat)
      requires blocks.Length == 16 && size > 0 && first > 0 && IsBlock(end, first, size)
      requires IsBlock(from, first, size) && from <= end
      requires Building(multiset(blocks[..]), BlocksTo(first, size, from))
      modifies blocks, this`words, this`free, this`freeList
      ensures Building(multiset{}, BlocksTo(first, size, end))
    {
      hide *;
      var cursor: nat := from;
      while cursor != end
        invariant IsBlock(cursor, first, size) && cursor <= end
        invariant Building(multiset(blocks[..]), BlocksTo(first, size, cursor))
        decreases end - cursor
      {
        var random := Random();
        var i: nat := random % 16;
        OneMore(first, size, cursor);
        WithinOne(first, size, cursor, end);
        ghost var was, all := blocks[..], BlocksTo(first, size, cursor);
        assert was[i] in was;
        PushPending(blocks[i], multiset(was), all);
        Advances(was, i, first, size, cursor);
        blocks[i] := cursor;
        assert blocks[..] == was[i := cursor];
        cursor := cursor + size;
      }
      PushRest(blocks, BlocksTo(first, size, end));
    }

    /** The rest of the buffer is pushed in order. */
    method PushRest(blocks: array<nat>, ghost all: set<nat>)
      requires blocks.Length == 16 && Building(multiset(blocks[..]), all)
      modifies this`words, this`free, this`freeList
      ensures Building(multiset{}, all)
    {
      hide *;
      assert blocks[0..] == blocks[..];
      for i := 0 to 16
        invariant Building(multiset(blocks[i..]), all)
      {
        assert blocks[i..] == [blocks[i]] + blocks[i + 1..];
        assert multiset(blocks[i..]) - multiset{blocks[i]} == multiset(blocks[i + 1..]);
        PushPending(blocks[i], multiset(blocks[i..]), all);
      }
      assert blocks[16..] == [];
    }

    /** The path for fewer than 16 blocks: a random block is pushed until none is left. */
    method PushFew(blocks: array<nat>, n: nat, ghost all: set<nat>)
      requires blocks.Length == 16 && n < 16 && Building(multiset(blocks[..n]), all)
      modifies blocks, this`words, this`free, this`freeList
      ensures Building(multiset{}, all)
    {
      hide *;
      var len: nat := n;
      while len > 0
        invariant len <= n && Building(multiset(blocks[..len]), all)
      {
        PushOneOf(blocks, len, all);
        len := len - 1;
      }
      assert blocks[..0] == [];
    }

    method PushOneOf(blocks: array<nat>, len: nat, ghost all: set<nat>)
      requires blocks.Length == 16 && 0 < len <= 16 && Building(multiset(blocks[..len]), all)
      modifies blocks, this`words, this`free, this`freeList
      ensures Building(multiset(blocks[..len - 1]), all)
    {
      hide *;
      var i := RandomBelow(len);
      ghost var was := blocks[..len];
      var block := blocks[i];
      assert block == was[i] && was[i] in was;
      ghost var rest := SwapRemoved(was, i);
      PushPending(block, multiset(was), all);
      blocks[i] := blocks[len - 1];
      assert blocks[..len - 1] == rest;
    }

    /**
      `page_init_small_or_large` up to the heap's lists: whatever the random numbers are, the free list
      has every block of the page exactly once.
     */
    method InitSmallOrLarge(c: nat)
      requires BaseOk(segment.base) && Placed(segment.shift, index, c) && ClassIsValid(c)
      modifies this
      ensures Valid() && sizeClass == c && !inFullList && handed == {} && localList == []
      ensures multiset(freeList) == multiset(Blocks()) && freeList != []
    {
      FillBounds(c);
      hide *;
      InitCommon(c);
      var size, first, end := SizeOfClass(c), FirstBlock(segment.base, segment.shift, index, c),
        PageEnd(segment.base, segment.shift, index);
      var blocks := new nat[16];
      var len, cursor := FillBuffer(blocks, first, size, end);
      Begins(multiset(blocks[..len]), first, size, cursor);
      if len == 16 {
        assert blocks[..16] == blocks[..];
        PushBuffered(blocks, first, size, end, cursor);
      } else {
        PushFew(blocks, len, BlocksTo(first, size, end));
      }
      Ends(c);
    }

    /** `page_init_huge` up to the heap's lists. */
    method InitHuge()
      requires BaseOk(segment.base)
      modifies this
      ensures Valid() && sizeClass == HUGE_SENTINEL && !inFullList && handed == {} && localList == []
      ensures freeList == [segment.base + 0x2000]
    {
      InitCommon(HUGE_SENTINEL);
      FreePush(segment.base + 0x2000);
    }
  }

  lemma Pending(free: seq<nat>, pending: multiset<nat>, all: set<nat>, b: nat)
    requires multiset(free) + pending == multiset(all) && b in pending && 0 !in all
    ensures b !in free && b > 0 && multiset([b] + free) + (pending - multiset{b}) == multiset(all)
  {
    assert multiset(all)[b] <= 1;
    assert b in multiset(all);
  }

  lemma Replaced(pushed: multiset<nat>, was: seq<nat>, i: nat, next: nat, all: set<nat>)
    requires i < |was| && pushed + (multiset(was) - multiset{was[i]}) == multiset(all) && next !in all
    ensures pushed + multiset(was[i := next]) == multiset(all + {next})
  {
    assert multiset(all + {next}) == multiset(all) + multiset{next};
  }

  /** The last element takes the place of element `i`. */
  lemma SwapRemoved(was: seq<nat>, i: nat) returns (rest: seq<nat>)
    requires i < |was|
    ensures |rest| == |was| - 1 && (forall j :: 0 <= j < |rest| ==> rest[j] == was[if j == i then |was| - 1 else j])
    ensures multiset(rest) == multiset(was) - multiset{was[i]}
  {
    var n := |was| - 1;
    assert was == was[..n] + [was[n]];
    rest := if i < n then was[..n][i := was[n]] else was[..n];
  }

  lemma CookieOk(random: u64)
    ensures var cookie := random % 0x100_0000_0000_0000 / 8 * 8 + 7; cookie % 8 == 7 && cookie < 0x100_0000_0000_0000
  {
  }

  lemma PushedBack(free: seq<nat>, local: seq<nat>, handed: set<nat>, blocks: set<nat>, b: nat)
    requires b in handed && multiset(free) + multiset(local) + multiset(handed) == multiset(blocks)
    ensures b !in free && b !in local
    ensures multiset(free) + multiset([b] + local) + multiset(handed - {b}) == multiset(blocks)
  {
    assert multiset(blocks)[b] <= 1;
    assert multiset(handed) == multiset(handed - {b}) + multiset{b};
  }

  /** Handing out the first block of a list. */
  lemma Popped(free: seq<nat>, local: seq<nat>, handed: set<nat>, blocks: set<nat>)
    requires free != [] && multiset(free) + multiset(local) + multiset(handed) == multiset(blocks)
    ensures free[0] !in handed && free[0] in blocks
    ensures multiset(free[1..]) + multiset(local) + multiset(handed + {free[0]}) == multiset(blocks)
  {
    var all := multiset(free) + multiset(local) + multiset(handed);
    assert free == [free[0]] + free[1..];
    assert multiset(blocks)[free[0]] <= 1;
    assert all[free[0]] >= 1 && free[0] in all;
    assert multiset(handed + {free[0]}) == multiset(handed) + multiset{free[0]};
  }
}
