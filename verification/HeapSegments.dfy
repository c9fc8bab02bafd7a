/** Segments of the heap are VMAs of the kernel's allocator: what `segment_alloc` and `segment_free` make of them. */
module HeapSegments {
  import opened Align
  import opened Tiles
  import opened VirtualAlloc
  import opened SizeClasses
  import opened HeapPages
  import opened Heap

  /** The tile of a segment at `base`, for an allocator whose range begins at `lo`. */
  ghost predicate TileOf(t: Tile, lo: nat, base: nat, size: nat) {
    base == lo + t.start * 4096 && size == t.pages * 4096
  }

  /** Every segment is a used tile. */
  ghost predicate Backed(at: map<nat, Segment>, ts: seq<Tile>, lo: nat) {
    forall b :: b in at ==> exists t :: t in UsedTiles(ts) && TileOf(t, lo, b, at[b].size)
  }

  /** Two tiles of a tiling do not overlap. */
  lemma TilesApart(ts: seq<Tile>, lo: nat, hi: nat, t: Tile, u: Tile)
    requires Tiling(ts, lo, hi) && t in ts && u in ts
    ensures t == u || t.End() <= u.start || u.End() <= t.start
  {
    var i :| 0 <= i < |ts| && ts[i] == t;
    var j :| 0 <= j < |ts| && ts[j] == u;
    if i != j {
      TilingOrder(ts, lo, hi, if i < j then i else j, if i < j then j else i);
    }
  }

  /** A segment at an aligned address in the range of the allocator lies where heap addresses lie. */
  lemma BaseInRange(base: nat, lo: nat)
    requires base % 0x40_0000 == 0 && 0xff00_0000_0000_0000 <= lo <= base < 0x1_0000_0000_0000_0000
    ensures BaseOk(base)
  {
  }

  /** Aligned pages that were free have room for a segment, and are its tile once they are carved out. */
  lemma FreePagesHaveRoom(at: map<nat, Segment>, ts: seq<Tile>, hi: nat, lo: nat, k: nat, a: nat, pages: nat)
    requires Tiling(ts, 0, hi) && Coalesced(ts) && Backed(at, ts, lo) && Carvable(ts, k, a, a + pages) && pages > 2
    requires BaseOk(lo + a * 4096)
    ensures Heap.RoomFor(at, lo + a * 4096, pages * 4096)
    ensures forall s: Segment :: s.base == lo + a * 4096 && s.size == pages * 4096 ==>
      Backed(at[s.base := s], Carve(ts, k, a, a + pages), lo)
  {
    var cs, mine := Carve(ts, k, a, a + pages), Tile(a, pages, true);
    CarveKeeps(ts, 0, hi, k, a, a + pages);
    assert mine in UsedTiles(cs);
    forall b | b in at
      ensures b + at[b].size <= lo + a * 4096 || lo + (a + pages) * 4096 <= b
      ensures exists t :: t in UsedTiles(cs) && TileOf(t, lo, b, at[b].size)
    {
      var t :| t in UsedTiles(ts) && TileOf(t, lo, b, at[b].size);
      TilesApart(ts, 0, hi, t, ts[k]);
      assert t in UsedTiles(cs);
    }
    hide Tiling, Coalesced, Carve, UsedTiles;
  }

  /** When a segment and its VMA go, the other segments keep theirs. */
  lemma StillBacked(at: map<nat, Segment>, ts: seq<Tile>, hi: nat, lo: nat, base: nat, k: nat)
    requires Tiling(ts, 0, hi) && Coalesced(ts) && Backed(at, ts, lo) && base in at
    requires k < |ts| && ts[k].used && TileOf(ts[k], lo, base, at[base].size)
    ensures Backed(at - {base}, Released(ts, k), lo)
  {
    ReleasedKeeps(ts, 0, hi, k);
    assert ts[k] in UsedTiles(ts);
    hide *;
    BackedIs(at, ts, lo);
    BackedIs(at - {base}, Released(ts, k), lo);
    OthersBacked(at, UsedTiles(ts), lo, base, ts[k]);
  }

  ghost predicate BackedBy(at: map<nat, Segment>, used: set<Tile>, lo: nat) {
    forall b :: b in at ==> exists t :: t in used && TileOf(t, lo, b, at[b].size)
  }

  lemma BackedIs(at: map<nat, Segment>, ts: seq<Tile>, lo: nat)
    ensures Backed(at, ts, lo) <==> BackedBy(at, UsedTiles(ts), lo)
  {
  }

  lemma OthersBacked(at: map<nat, Segment>, used: set<Tile>, lo: nat, base: nat, gone: Tile)
    requires BackedBy(at, used, lo) && base in at && TileOf(gone, lo, base, at[base].size)
    ensures BackedBy(at - {base}, used - {gone}, lo)
  {
    var rest := at - {base};
    forall b | b in rest
      ensures exists t :: t in used - {gone} && TileOf(t, lo, b, rest[b].size)
    {
      var t :| t in used && TileOf(t, lo, b, at[b].size);
      assert t in used - {gone};
    }
  }

  /** The used tiles are those of `ts` and one more, whose pages were free; no other page is free no longer. */
  ghost predicate Taken(ts: seq<Tile>, us: seq<Tile>, hi: nat, t: Tile) {
    && t.used && t !in UsedTiles(ts) && UsedTiles(us) == UsedTiles(ts) + {t}
    && (forall p :: 0 <= p < hi ==> (FreePage(us, p) <==> FreePage(ts, p) && !t.Has(p)))
    && (forall p :: t.Has(p) ==> FreePage(ts, p))
  }

  /** The used tiles are those of `ts` without one, whose pages are free now, as all that were. */
  ghost predicate Given(ts: seq<Tile>, us: seq<Tile>, hi: nat, t: Tile) {
    && t in UsedTiles(ts) && UsedTiles(us) == UsedTiles(ts) - {t}
    && (forall p :: 0 <= p < hi ==> (FreePage(us, p) <==> FreePage(ts, p) || t.Has(p)))
  }

  lemma CarveIsTaken(ts: seq<Tile>, hi: nat, k: nat, a: nat, b: nat)
    requires Tiling(ts, 0, hi) && Coalesced(ts) && Carvable(ts, k, a, b)
    ensures Taken(ts, Carve(ts, k, a, b), hi, Tile(a, b - a, true))
  {
    var t := Tile(a, b - a, true);
    CarveKeeps(ts, 0, hi, k, a, b);
    TilingCut(ts, 0, hi, k);
    CarvableIffAllFree(ts, 0, hi, a, b);
    FreeIffNotUsed(ts, 0, hi, a);
    forall p | 0 <= p < hi
      ensures FreePage(Carve(ts, k, a, b), p) <==> FreePage(ts, p) && !t.Has(p)
    {
      CarveTakes(ts, 0, hi, k, a, b, p);
    }
    hide Carve, UsedTiles, FreePage;
    assert t.Has(a);
  }

  lemma ReleaseIsGiven(ts: seq<Tile>, hi: nat, k: nat)
    requires Tiling(ts, 0, hi) && Coalesced(ts) && k < |ts| && ts[k].used
    ensures Given(ts, Released(ts, k), hi, ts[k])
  {
    ReleasedKeeps(ts, 0, hi, k);
    forall p | 0 <= p < hi
      ensures FreePage(Released(ts, k), p) <==> FreePage(ts, p) || ts[k].Has(p)
    {
      ReleaseGives(ts, 0, hi, k, p);
    }
  }

  /** Taking space for a segment and giving it back restores the tile list. */
  lemma SpaceRestored(ts: seq<Tile>, us: seq<Tile>, vs: seq<Tile>, hi: nat, t: Tile)
    requires Tiling(ts, 0, hi) && Coalesced(ts) && Tiling(vs, 0, hi) && Coalesced(vs)
    requires Taken(ts, us, hi, t) && Given(us, vs, hi, t)
    ensures vs == ts
  {
    hide FreePage, Tiling, Coalesced;
    Canonical(ts, vs, 0, hi);
  }

  /**
    The space that `segment_alloc` finds for `pages` pages, from the allocator itself. `frames` says whether the
    pages can be mapped; without that, or where `vma_alloc_aligned` stops, so does `segment_alloc`. There is none
    left exactly where `vma_alloc_aligned` finds none at an alignment of 4 MiB, and otherwise exactly the pages of the
    segment are taken.
   */
  method FindSpace(allocator: VmaAllocator, ghost at: map<nat, Segment>, pages: nat, metadata: seq<bool>, frames: bool)
    returns (space: Space, ghost first: nat, ghost k: nat, ghost a: nat)
    requires allocator.Valid() && 2 < pages <= 0x400_0000 && |metadata| == 4
    requires Backed(at, allocator.book.view, allocator.loAddress)
    requires 0xff00_0000_0000_0000 <= allocator.loAddress && allocator.hiAddress <= 0x1_0000_0000_0000_0000
    modifies allocator.Repr
    ensures allocator.Valid() && fresh(allocator.Repr - old(allocator.Repr))
    ensures var ts := old(allocator.book).view;
      && allocator.Choices(ts, pages, 22, first, k, a, metadata)
      && (space == NoneLeft <==> allocator.LacksSpace(ts, pages, 22, first, metadata))
      && (space == Stopped <==>
            allocator.LacksMetadata(ts, pages, 22, first, k, a, metadata)
            || (!frames && !allocator.LacksSpace(ts, pages, 22, first, metadata)))
    ensures space.Found? ==>
      && space.base == allocator.loAddress + a * 4096 && Heap.RoomFor(at, space.base, pages * 4096)
      && Taken(old(allocator.book).view, allocator.book.view, allocator.Pages(), Tile(a, pages, true))
    ensures space.Found? ==> forall s: Segment :: s.base == space.base && s.size == pages * 4096 ==>
      Backed(at[s.base := s], allocator.book.view, allocator.loAddress)
    ensures space == NoneLeft ==> allocator.book.view == old(allocator.book).view
    ensures (forall i :: 0 <= i < 4 ==> metadata[i]) && frames && pages + 1024 <= 0x400_0000 ==>
      HasRun(old(allocator.book).view, pages + 1024) ==> space.Found?
  {
    hide *;
    allocator.Opened();
    ghost var b0, ts, lo, hi: nat := allocator.book, allocator.book.view, allocator.loAddress, allocator.Pages();
    var r;
    r, k, a, first := allocator.AllocAligned(pages, 22, metadata);
    Sufficient(allocator, ts, hi, pages, first, k, a, metadata);
    BothLacking(allocator, ts, pages, first, k, a, metadata);
    if r == NoSpace {
      return NoneLeft, first, k, a;
    }
    if !r.Allocated? || !frames {
      return Stopped, first, k, a;
    }
    var start, _ := r.vma.ReadBounds();
    allocator.Opened();
    CarvedVma(allocator, b0, k, a, a + pages, r.vma);
    WithinRange(allocator, ts, hi, k, a, a + pages);
    PagesOfRange(allocator, lo + a * 4096);
    FreePagesHaveRoom(at, ts, hi, lo, k, a, pages);
    CarveIsTaken(ts, hi, k, a, a + pages);
    space := Found(start);
  }

  /** So many pages in a row are free. */
  ghost predicate HasRun(ts: seq<Tile>, pages: nat) {
    exists p: nat :: FreeRun(ts, p, pages)
  }

  /** With metadata, and as many free pages in a row as the padded allocation needs, there is space. */
  lemma Sufficient(allocator: VmaAllocator, ts: seq<Tile>, hi: nat, pages: nat, first: nat, k: nat, a: nat,
                   metadata: seq<bool>)
    requires Tiling(ts, 0, hi) && Coalesced(ts) && |metadata| == 4
    ensures (forall i :: 0 <= i < 4 ==> metadata[i]) && pages + 1024 <= 0x400_0000 ==>
      !allocator.LacksMetadata(ts, pages, 22, first, k, a, metadata)
    ensures HasRun(ts, pages + 1024) ==> !allocator.LacksSpace(ts, pages, 22, first, metadata)
  {
    assert Pow2(10) == 1024;
    hide Pow2, FreeRun, VmaAllocator.LacksSpace, VmaAllocator.LacksMetadata;
    if (forall i :: 0 <= i < 4 ==> metadata[i]) && pages + 1024 <= 0x400_0000 {
      allocator.NeverHalts(ts, pages, 22, first, k, a, metadata);
    }
    if HasRun(ts, pages + 1024) {
      var p: nat :| FreeRun(ts, p, pages + 1024);
      allocator.EnoughSpace(ts, hi, pages, 22, first, metadata, p);
    }
  }

  /** The two ways to fail exclude each other. */
  lemma BothLacking(allocator: VmaAllocator, ts: seq<Tile>, pages: nat, first: nat, k: nat, a: nat, metadata: seq<bool>)
    requires |metadata| == 4
    ensures !(allocator.LacksSpace(ts, pages, 22, first, metadata)
              && allocator.LacksMetadata(ts, pages, 22, first, k, a, metadata))
  {
  }

  /** What the carved-out VMA is. */
  lemma CarvedVma(allocator: VmaAllocator, b0: Book, k: nat, a: nat, b: nat, v: Vma)
    requires allocator.Consistent() && allocator.CarvedFrom(b0, k, a, b, v)
    requires |allocator.book.tiles| == |allocator.book.view|
    ensures Carvable(b0.view, k, a, b) && allocator.book.view == Carve(b0.view, k, a, b)
    ensures v.allocator == allocator && v.byAddr.head.value == a
  {
    var c := CarvedIndex(b0.view, k, a);
    allocator.Bounds(c);
    assert allocator.book.view[c] == Tile(a, b - a, true);
  }

  /** The VMA lies in the range of the allocator. */
  lemma WithinRange(allocator: VmaAllocator, ts: seq<Tile>, hi: nat, k: nat, a: nat, b: nat)
    requires Carvable(ts, k, a, b) && Tiling(ts, 0, hi) && allocator.BaseOk() && hi == allocator.Pages()
    ensures allocator.loAddress + a * 4096 < allocator.hiAddress
  {
    TilingCut(ts, 0, hi, k);
  }

  lemma PagesOfRange(allocator: VmaAllocator, base: nat)
    requires IsAligned(base, 22) && allocator.loAddress <= base < allocator.hiAddress
    requires 0xff00_0000_0000_0000 <= allocator.loAddress && allocator.hiAddress <= 0x1_0000_0000_0000_0000
    ensures BaseOk(base)
  {
    Constants();
    BaseInRange(base, allocator.loAddress);
  }

  /**
    What `segment_free` does with the VMA of the segment at `base`: the search finds it, its bounds are those of the
    segment, and it is freed, so that exactly its pages become free.
   */
  method GiveSpaceBack(allocator: VmaAllocator, ghost at: map<nat, Segment>, base: nat)
    returns (lo: nat, hi: nat, ghost t: Tile)
    requires allocator.Valid() && Backed(at, allocator.book.view, allocator.loAddress)
    requires base in at && at[base].size > 0
    modifies allocator.Repr
    ensures allocator.Valid() && fresh(allocator.Repr - old(allocator.Repr))
    ensures lo == base && hi == base + at[base].size && TileOf(t, allocator.loAddress, base, at[base].size)
    ensures Given(old(allocator.book).view, allocator.book.view, allocator.Pages(), t)
    ensures Backed(at - {base}, allocator.book.view, allocator.loAddress)
  {
    hide *;
    allocator.Opened();
    ghost var ts, low, pages: nat := allocator.book.view, allocator.loAddress, allocator.Pages();
    ghost var j := TileNumber(at, ts, pages, low, base);
    RangeHolds(allocator, ts, j, base, at[base].size);
    var vma, k := allocator.Find(base);
    SameTile(ts, pages, low, base, at[base].size, j, k);
    CoveredVma(allocator, vma, k);
    BoundsOf(ts[k], low, base, at[base].size);
    lo, hi := vma.ReadBounds();
    StillBacked(at, ts, pages, low, base, k);
    ReleaseIsGiven(ts, pages, k);
    t := ts[k];
    allocator.Free(vma, k);
  }

  lemma BoundsOf(t: Tile, lo: nat, base: nat, size: nat)
    requires TileOf(t, lo, base, size)
    ensures base == lo + t.start * 4096 && size == t.pages * 4096
  {
  }

  /** Which tile a segment is. */
  lemma TileNumber(at: map<nat, Segment>, ts: seq<Tile>, hi: nat, lo: nat, base: nat) returns (j: nat)
    requires Tiling(ts, 0, hi) && Backed(at, ts, lo) && base in at
    ensures j < |ts| && ts[j].used && TileOf(ts[j], lo, base, at[base].size)
  {
    var t :| t in UsedTiles(ts) && TileOf(t, lo, base, at[base].size);
    j :| 0 <= j < |ts| && ts[j] == t;
  }

  lemma RangeHolds(allocator: VmaAllocator, ts: seq<Tile>, j: nat, base: nat, size: nat)
    requires allocator.BaseOk() && Tiling(ts, 0, allocator.Pages())
    requires j < |ts| && TileOf(ts[j], allocator.loAddress, base, size) && size > 0
    ensures allocator.loAddress <= base < allocator.hiAddress
  {
    TilingCut(ts, 0, allocator.Pages(), j);
  }

  /** The tile that has the first page of tile `j` is that tile. */
  lemma SameTile(ts: seq<Tile>, hi: nat, lo: nat, base: nat, size: nat, j: nat, k: nat)
    requires Tiling(ts, 0, hi) && j < |ts| && TileOf(ts[j], lo, base, size) && size > 0
    requires k < |ts| && ts[k].Has((base - lo) / 4096)
    ensures j == k
  {
    if j != k {
      TilingOrder(ts, 0, hi, if j < k then j else k, if j < k then k else j);
    }
  }

  /** The bounds of the VMA that covers a tile, and that its place is in range. */
  lemma CoveredVma(allocator: VmaAllocator, v: Vma, k: nat)
    requires allocator.Consistent() && allocator.Covers(v, k)
    requires |allocator.book.tiles| == |allocator.book.view|
    ensures k < |allocator.book.tiles| && allocator.book.tiles[k] == v && v.allocator == allocator
    ensures v.byAddr.head.value == allocator.book.view[k].start
    ensures v.bySize.head.value == allocator.book.view[k].pages - 1
  {
    allocator.Bounds(k);
  }
}
