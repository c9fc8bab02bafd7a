/** `consider_physical_memory`: which parts of a memory region no reservation claims. */
module Reservations {
  import opened PhysicalMemory
  import opened PhysicalAlloc

  /** `struct memory_reservation`. */
  datatype Range = Range(start: nat, end: nat) {
    predicate Has(p: nat) { start <= p < end }
  }

  ghost predicate Reserved(rs: seq<Range>, p: nat) {
    exists i :: 0 <= i < |rs| && rs[i].Has(p)
  }

  /** The start of the last reservation in the list that starts in `[start, end)`, otherwise `end`. */
  function LastTop(rs: seq<Range>, start: nat, end: nat): nat {
    if rs == [] then end
    else
      var last := rs[|rs| - 1].start;
      if start <= last < end then last else LastTop(rs[..|rs| - 1], start, end)
  }

  lemma {:induction false} LastTopIs(rs: seq<Range>, start: nat, end: nat)
    ensures LastTop(rs, start, end) == end || exists i :: 0 <= i < |rs| && rs[i].start == LastTop(rs, start, end)
    ensures start <= end ==> start <= LastTop(rs, start, end) <= end
    ensures LastTop(rs, start, end) == end ==> forall i :: 0 <= i < |rs| ==> !(start <= rs[i].start < end)
  {
    if rs != [] {
      var n := |rs| - 1;
      LastTopIs(rs[..n], start, end);
      assert forall i :: 0 <= i < n ==> rs[..n][i] == rs[i];
    }
  }

  /** A later start in the same stretch has the same top. */
  lemma {:induction false} LastTopLater(rs: seq<Range>, start: nat, later: nat, end: nat)
    requires start <= later <= LastTop(rs, start, end) < end
    ensures LastTop(rs, later, end) == LastTop(rs, start, end)
  {
    if !(start <= rs[|rs| - 1].start < end) {
      LastTopLater(rs[..|rs| - 1], start, later, end);
    }
  }

  /** An earlier start cannot have a top beyond `s`, if `s` is its own top. */
  lemma {:induction false} TopNotPast(rs: seq<Range>, start: nat, s: nat, end: nat)
    requires start <= s < end && LastTop(rs, s, end) == s
    ensures LastTop(rs, start, end) <= s
  {
    if rs != [] && !(start <= rs[|rs| - 1].start < end) {
      TopNotPast(rs[..|rs| - 1], start, s, end);
    }
  }

  // ----- when the loop ends

  lemma {:induction false} ReservedBelow(rs: seq<Range>, p: nat)
    requires Reserved(rs, p)
    ensures p < MaxEnd(rs)
  {
    var i :| 0 <= i < |rs| && rs[i].Has(p);
    MaxEndIs(rs, i);
  }

  ghost function MaxEnd(rs: seq<Range>): nat {
    if rs == [] then 0
    else if rs[0].end > MaxEnd(rs[1..]) then rs[0].end else MaxEnd(rs[1..])
  }

  lemma {:induction false} MaxEndIs(rs: seq<Range>, i: nat)
    requires i < |rs|
    ensures rs[i].end <= MaxEnd(rs)
  {
    if i > 0 {
      MaxEndIs(rs[1..], i - 1);
    }
  }

  /** The first address from `from` on that no reservation has. */
  ghost function FirstFree(rs: seq<Range>, from: nat): (r: nat)
    ensures from <= r && !Reserved(rs, r) && forall p :: from <= p < r ==> Reserved(rs, p)
    decreases MaxEnd(rs) - from
  {
    if Reserved(rs, from) then ReservedBelow(rs, from); FirstFree(rs, from + 1) else from
  }

  /** An address that the loop cannot leave: nothing has it, and it is its own top. */
  ghost predicate Stalls(rs: seq<Range>, end: nat, s: nat) {
    s < end && !Reserved(rs, s) && LastTop(rs, s, end) == s
  }

  ghost predicate NeverStalls(rs: seq<Range>, addr: nat, end: nat) {
    forall s {:trigger Stalls(rs, end, s)} :: addr <= s ==> !Stalls(rs, end, s)
  }

  /** The value of `start` after `n` turns, when the loop asks whether the range is now empty. */
  ghost function StartAfter(rs: seq<Range>, addr: nat, end: nat, n: nat): nat {
    if n == 0 then FirstFree(rs, addr)
    else
      var s := StartAfter(rs, addr, end, n - 1);
      if s < end then FirstFree(rs, LastTop(rs, s, end)) else s
  }

  ghost predicate Ends(rs: seq<Range>, addr: nat, end: nat) {
    exists n :: StartAfter(rs, addr, end, n) >= end
  }

  lemma {:induction false} NeverPast(rs: seq<Range>, addr: nat, end: nat, s: nat, n: nat)
    requires addr <= s && Stalls(rs, end, s)
    ensures StartAfter(rs, addr, end, n) <= s
  {
    if n > 0 {
      NeverPast(rs, addr, end, s, n - 1);
      TopNotPast(rs, StartAfter(rs, addr, end, n - 1), s, end);
    }
  }

  lemma {:induction false} Advances(rs: seq<Range>, addr: nat, end: nat, n: nat)
    requires NeverStalls(rs, addr, end)
    ensures StartAfter(rs, addr, end, n) >= addr && !Reserved(rs, StartAfter(rs, addr, end, n))
    ensures StartAfter(rs, addr, end, n) >= end || StartAfter(rs, addr, end, n) >= addr + n
  {
    if n > 0 {
      Advances(rs, addr, end, n - 1);
      var s := StartAfter(rs, addr, end, n - 1);
      if s < end {
        LastTopIs(rs, s, end);
        assert !Stalls(rs, end, s);
      }
    }
  }

  /** The loop ends exactly when no address of the region stalls it. */
  lemma EndsIff(rs: seq<Range>, addr: nat, end: nat)
    ensures Ends(rs, addr, end) <==> NeverStalls(rs, addr, end)
  {
    if NeverStalls(rs, addr, end) {
      Advances(rs, addr, end, if addr <= end then end - addr else 0);
    } else {
      var s :| addr <= s && Stalls(rs, end, s);
      forall n: nat
        ensures StartAfter(rs, addr, end, n) < end
      {
        NeverPast(rs, addr, end, s, n);
      }
    }
  }

  /** Only an empty reservation can stall the loop. */
  lemma NonEmptyNeverStalls(rs: seq<Range>, addr: nat, end: nat)
    requires forall i :: 0 <= i < |rs| ==> rs[i].start < rs[i].end
    ensures NeverStalls(rs, addr, end)
  {
    forall s | addr <= s
      ensures !Stalls(rs, end, s)
    {
      LastTopIs(rs, s, end);
      if s < end && LastTop(rs, s, end) == s {
        var i :| 0 <= i < |rs| && rs[i].start == s;
        assert rs[i].Has(s);
      }
    }
  }

  /** One empty reservation that keeps the loop going for ever, and one that does not. */
  lemma EmptyReservationStays()
    ensures !Ends([Range(5, 5)], 0, 10)
    ensures Ends([Range(5, 5), Range(7, 8)], 0, 10)
  {
    var rs := [Range(5, 5)];
    assert rs[..0] == [] && Stalls(rs, 10, 5);
    EndsIff(rs, 0, 10);
    var rs' := [Range(5, 5), Range(7, 8)];
    forall s: nat
      ensures !Stalls(rs', 10, s)
    {
      assert rs'[1].Has(7) && rs'[..1] == rs;
      assert LastTop(rs, s, 10) == if s <= 5 then 5 else 10;
      assert LastTop(rs', s, 10) == if s <= 7 then 7 else 10;
    }
    EndsIff(rs', 0, 10);
  }

  // ----- the chunks

  /** The chunks that the loop passes on from a free address `start` on. */
  ghost function ChunksFrom(rs: seq<Range>, start: nat, end: nat): seq<Range>
    requires NeverStalls(rs, start, end) && !Reserved(rs, start)
    decreases if start < end then end - start else 0
  {
    if start >= end then []
    else
      var top := LastTop(rs, start, end);
      LastTopIs(rs, start, end);
      assert !Stalls(rs, end, start);
      [Range(start, top)] + ChunksFrom(rs, FirstFree(rs, top), end)
  }

  ghost function Chunks(rs: seq<Range>, addr: nat, end: nat): seq<Range>
    requires NeverStalls(rs, addr, end)
  {
    ChunksFrom(rs, FirstFree(rs, addr), end)
  }

  /** One chunk that the loop passes on: from a free address up to the top that the source computes. */
  ghost predicate ChunkOk(rs: seq<Range>, addr: nat, end: nat, c: Range) {
    addr <= c.start < c.end <= end && !Reserved(rs, c.start) && c.end == LastTop(rs, c.start, end)
  }

  ghost predicate InChunk(cs: seq<Range>, p: nat) {
    exists i :: 0 <= i < |cs| && cs[i].Has(p)
  }

  /** The chunks: in order, without overlap, and with every free address of the region. */
  ghost predicate ChunksOk(rs: seq<Range>, addr: nat, end: nat, cs: seq<Range>) {
    && (forall i :: 0 <= i < |cs| ==> ChunkOk(rs, addr, end, cs[i]))
    && (forall i, j :: 0 <= i < j < |cs| ==> cs[i].end <= cs[j].start)
    && (forall p :: addr <= p < end && !Reserved(rs, p) ==> InChunk(cs, p))
  }

  lemma {:induction false} ChunksFromOk(rs: seq<Range>, start: nat, end: nat)
    requires NeverStalls(rs, start, end) && !Reserved(rs, start)
    ensures ChunksOk(rs, start, end, ChunksFrom(rs, start, end))
    decreases if start < end then end - start else 0
  {
    if start < end {
      var top := LastTop(rs, start, end);
      LastTopIs(rs, start, end);
      assert !Stalls(rs, end, start);
      ChunksFromOk(rs, FirstFree(rs, top), end);
      OneMoreChunk(rs, start, top, end, ChunksFrom(rs, FirstFree(rs, top), end));
    }
  }

  lemma OneMoreChunk(rs: seq<Range>, start: nat, top: nat, end: nat, rest: seq<Range>)
    requires start < top <= end && !Reserved(rs, start) && top == LastTop(rs, start, end)
    requires ChunksOk(rs, FirstFree(rs, top), end, rest)
    ensures ChunksOk(rs, start, end, [Range(start, top)] + rest)
  {
    hide *;
    var next := FirstFree(rs, top);
    RestStarts(rs, next, end, rest);
    InOrder(rs, start, top, next, end, rest);
    Covered(rs, start, top, end, rest);
    ChunksFromParts(rs, start, end, [Range(start, top)] + rest);
  }

  lemma RestStarts(rs: seq<Range>, next: nat, end: nat, rest: seq<Range>)
    requires ChunksOk(rs, next, end, rest)
    ensures forall i :: 0 <= i < |rest| ==> ChunkOk(rs, next, end, rest[i])
    ensures forall i, j :: 0 <= i < j < |rest| ==> rest[i].end <= rest[j].start
    ensures forall p :: next <= p < end && !Reserved(rs, p) ==> InChunk(rest, p)
  {
  }

  lemma ChunksFromParts(rs: seq<Range>, addr: nat, end: nat, cs: seq<Range>)
    requires forall i :: 0 <= i < |cs| ==> ChunkOk(rs, addr, end, cs[i])
    requires forall i, j :: 0 <= i < j < |cs| ==> cs[i].end <= cs[j].start
    requires forall p :: addr <= p < end && !Reserved(rs, p) ==> InChunk(cs, p)
    ensures ChunksOk(rs, addr, end, cs)
  {
  }

  lemma InOrder(rs: seq<Range>, start: nat, top: nat, next: nat, end: nat, rest: seq<Range>)
    requires start < top <= end && top <= next && !Reserved(rs, start) && top == LastTop(rs, start, end)
    requires forall i :: 0 <= i < |rest| ==> ChunkOk(rs, next, end, rest[i])
    requires forall i, j :: 0 <= i < j < |rest| ==> rest[i].end <= rest[j].start
    ensures var cs := [Range(start, top)] + rest;
      && (forall i :: 0 <= i < |cs| ==> ChunkOk(rs, start, end, cs[i]))
      && (forall i, j :: 0 <= i < j < |cs| ==> cs[i].end <= cs[j].start)
  {
    hide LastTop, Reserved;
    var cs := [Range(start, top)] + rest;
    assert forall i :: 0 < i < |cs| ==> cs[i] == rest[i - 1] && next <= cs[i].start;
  }

  lemma Covered(rs: seq<Range>, start: nat, top: nat, end: nat, rest: seq<Range>)
    requires forall p :: FirstFree(rs, top) <= p < end && !Reserved(rs, p) ==> InChunk(rest, p)
    ensures forall p :: start <= p < end && !Reserved(rs, p) ==> InChunk([Range(start, top)] + rest, p)
  {
    hide Reserved;
    var cs := [Range(start, top)] + rest;
    forall p | start <= p < end && !Reserved(rs, p)
      ensures InChunk(cs, p)
    {
      if p < top {
        assert cs[0].Has(p);
      } else {
        assert InChunk(rest, p);
        var i :| 0 <= i < |rest| && rest[i].Has(p);
        assert cs[i + 1].Has(p);
      }
    }
  }

  /** For every region where the loop ends. */
  lemma ChunksAreOk(rs: seq<Range>, addr: nat, end: nat)
    requires NeverStalls(rs, addr, end)
    ensures ChunksOk(rs, addr, end, Chunks(rs, addr, end))
  {
    ChunksFromOk(rs, FirstFree(rs, addr), end);
  }

  // ----- when no chunk touches a reservation

  ghost predicate Clean(rs: seq<Range>, cs: seq<Range>) {
    forall p :: InChunk(cs, p) ==> !Reserved(rs, p)
  }

  /** A reserved address of the region right after one that none has. */
  ghost predicate Boundary(rs: seq<Range>, addr: nat, end: nat, p: nat) {
    addr < p < end && !Reserved(rs, p - 1) && Reserved(rs, p)
  }

  /** From the end of every free stretch, the last reservation ahead in the list is the one that ends the stretch. */
  ghost predicate Ordered(rs: seq<Range>, addr: nat, end: nat) {
    forall p {:trigger LastTop(rs, p, end)} :: Boundary(rs, addr, end, p) ==> LastTop(rs, p, end) == p
  }

  /** Nobody needs more than the order the source's `goto` loop was written for: later ranges first. */
  lemma DescendingIsOrdered(rs: seq<Range>, addr: nat, end: nat)
    requires forall i, j :: 0 <= i < j < |rs| ==> rs[j].start <= rs[i].start
    ensures Ordered(rs, addr, end)
  {
    forall p: nat | Boundary(rs, addr, end, p)
      ensures LastTop(rs, p, end) == p
    {
      var i :| 0 <= i < |rs| && rs[i].Has(p);
      assert !rs[i].Has(p - 1);
      DescendingTop(rs, p, end, i);
    }
  }

  lemma {:induction false} DescendingTop(rs: seq<Range>, p: nat, end: nat, i: nat)
    requires i < |rs| && rs[i].start == p < end
    requires forall i, j :: 0 <= i < j < |rs| ==> rs[j].start <= rs[i].start
    ensures LastTop(rs, p, end) == p
  {
    if i < |rs| - 1 {
      DescendingTop(rs[..|rs| - 1], p, end, i);
    }
  }

  /** In ascending order the first chunk runs over a reservation. */
  lemma AscendingOverlaps()
    ensures var rs := [Range(1, 2), Range(3, 4)];
      LastTop(rs, 0, 10) == 3 && Reserved(rs, 1) && !Ordered(rs, 0, 10)
  {
    var rs := [Range(1, 2), Range(3, 4)];
    assert rs[0].Has(1);
    assert Boundary(rs, 0, 10, 1);
    assert LastTop(rs, 1, 10) == 3;
  }

  /** The first reserved address up to `p`, after a free one. */
  lemma FirstReserved(rs: seq<Range>, start: nat, p: nat) returns (q: nat)
    requires !Reserved(rs, start) && start < p && Reserved(rs, p)
    ensures start < q <= p && !Reserved(rs, q - 1) && Reserved(rs, q)
  {
    q := p;
    while Reserved(rs, q - 1)
      invariant start < q <= p && Reserved(rs, q)
      decreases q
    {
      q := q - 1;
    }
  }

  /** For an ordered list, a chunk ends before the first reserved address after its start. */
  lemma CleanChunk(rs: seq<Range>, addr: nat, end: nat, c: Range, p: nat)
    requires ChunkOk(rs, addr, end, c) && Ordered(rs, addr, end) && c.Has(p)
    ensures !Reserved(rs, p)
  {
    if Reserved(rs, p) {
      var q := FirstReserved(rs, c.start, p);
      assert Boundary(rs, addr, end, q);
      TopNotPast(rs, c.start, q, end);
      assert false;
    }
  }

  /** The chunks touch no reservation exactly when the list is ordered for the region. */
  lemma CleanIffOrdered(rs: seq<Range>, addr: nat, end: nat, cs: seq<Range>)
    requires ChunksOk(rs, addr, end, cs)
    ensures Clean(rs, cs) <==> Ordered(rs, addr, end)
  {
    if Ordered(rs, addr, end) {
      forall p | InChunk(cs, p)
        ensures !Reserved(rs, p)
      {
        var i :| 0 <= i < |cs| && cs[i].Has(p);
        CleanChunk(rs, addr, end, cs[i], p);
      }
    }
    if Clean(rs, cs) {
      forall p: nat | Boundary(rs, addr, end, p)
        ensures LastTop(rs, p, end) == p
      {
        assert InChunk(cs, p - 1);
        var i :| 0 <= i < |cs| && cs[i].Has(p - 1);
        assert !InChunk(cs, p);
        assert !cs[i].Has(p);
        LastTopLater(rs, cs[i].start, p, end);
      }
    }
  }

  // ----- the frames of the chunks

  /** No chunk begins at frame 0 or ends at exactly 4 GiB. */
  ghost predicate AllSound(cs: seq<Range>) {
    forall i :: 0 <= i < |cs| ==> Sound(cs[i].start, cs[i].end)
  }

  ghost function ChunkFrames(cs: seq<Range>): set<Frame> {
    if cs == [] then {} else ChunkFrames(cs[..|cs| - 1]) + WholePages(cs[|cs| - 1].start, cs[|cs| - 1].end)
  }

  lemma {:induction false} InChunkFrames(cs: seq<Range>, f: Frame)
    ensures f in ChunkFrames(cs) <==> exists i :: 0 <= i < |cs| && PageInside(f, cs[i].start, cs[i].end)
  {
    if cs != [] {
      var n := |cs| - 1;
      InChunkFrames(cs[..n], f);
      assert forall i :: 0 <= i < n ==> cs[..n][i] == cs[i];
    }
  }

  /** The page is inside the region and no address of it is reserved. */
  ghost predicate Unreserved(rs: seq<Range>, addr: nat, end: nat, f: Frame) {
    PageInside(f, addr, end) && forall p: nat :: f * PAGE_SIZE <= p < f * PAGE_SIZE + PAGE_SIZE ==> !Reserved(rs, p)
  }

  /** A page without a reserved address is in one chunk as a whole: no chunk ends at an address that none has. */
  lemma InOneChunk(rs: seq<Range>, addr: nat, end: nat, cs: seq<Range>, f: Frame)
    requires NeverStalls(rs, addr, end) && ChunksOk(rs, addr, end, cs) && Unreserved(rs, addr, end, f)
    ensures exists i :: 0 <= i < |cs| && PageInside(f, cs[i].start, cs[i].end)
  {
    var lo := f * PAGE_SIZE;
    assert InChunk(cs, lo);
    var i :| 0 <= i < |cs| && cs[i].Has(lo);
    if cs[i].end < end {
      LastTopLater(rs, cs[i].start, cs[i].end, end);
      assert !Stalls(rs, end, cs[i].end);
    }
  }

  /** For an ordered list, the whole pages of the chunks are the pages without a reserved address. */
  lemma ChunksAreUnreserved(rs: seq<Range>, addr: nat, end: nat, cs: seq<Range>, f: Frame)
    requires NeverStalls(rs, addr, end) && ChunksOk(rs, addr, end, cs) && Ordered(rs, addr, end)
    ensures f in ChunkFrames(cs) <==> Unreserved(rs, addr, end, f)
  {
    InChunkFrames(cs, f);
    CleanIffOrdered(rs, addr, end, cs);
    var lo := f * PAGE_SIZE;
    if f in ChunkFrames(cs) {
      var i :| 0 <= i < |cs| && PageInside(f, cs[i].start, cs[i].end);
      forall p: nat | lo <= p < lo + PAGE_SIZE
        ensures !Reserved(rs, p)
      {
        assert cs[i].Has(p) && InChunk(cs, p);
      }
    }
    if Unreserved(rs, addr, end, f) {
      InOneChunk(rs, addr, end, cs, f);
    }
  }

  // ----- the loops

  /** The loop at `bump_up_start`. */
  method BumpUp(from: nat, rs: seq<Range>) returns (start: nat)
    ensures start == FirstFree(rs, from)
  {
    start := from;
    var i := 0;
    while i < |rs|
      invariant 0 <= i <= |rs| && from <= start
      invariant forall j :: 0 <= j < i ==> !rs[j].Has(start)
      invariant forall p :: from <= p < start ==> Reserved(rs, p)
      decreases MaxEnd(rs) - start, |rs| - i
    {
      if rs[i].Has(start) {
        MaxEndIs(rs, i);
        assert forall p :: start <= p < rs[i].end ==> rs[i].Has(p);
        start := rs[i].end;
        i := 0;
      } else {
        i := i + 1;
      }
    }
    FirstFreeIs(rs, from, start);
  }

  lemma FirstFreeIs(rs: seq<Range>, from: nat, start: nat)
    requires from <= start && !Reserved(rs, start) && forall p :: from <= p < start ==> Reserved(rs, p)
    ensures start == FirstFree(rs, from)
  {
    assert FirstFree(rs, from) < start ==> Reserved(rs, FirstFree(rs, from));
  }

  /** The loop that looks for the top of the chunk. */
  method FindTop(start: nat, end: nat, rs: seq<Range>) returns (top: nat)
    ensures top == LastTop(rs, start, end)
  {
    top := end;
    for i := 0 to |rs|
      invariant top == LastTop(rs[..i], start, end)
    {
      assert rs[..i + 1][..i] == rs[..i];
      if start <= rs[i].start < end {
        top := rs[i].start;
      }
    }
    assert rs[..|rs|] == rs;
  }

  /**
    The outer loop of `consider_physical_memory`, with its calls of `add_physical_chunk` in order. They are
    disjoint, cover every address that is not reserved, and touch no reservation exactly when the list is
    ordered.
   */
  method FindChunks(addr: nat, end: nat, rs: seq<Range>) returns (cs: seq<Range>)
    requires NeverStalls(rs, addr, end)
    ensures cs == Chunks(rs, addr, end) && ChunksOk(rs, addr, end, cs)
    ensures Clean(rs, cs) <==> Ordered(rs, addr, end)
  {
    hide ChunksOk, Clean, Ordered, LastTop, Reserved;
    var start := BumpUp(addr, rs);
    cs := [];
    while start < end
      invariant addr <= start && !Reserved(rs, start)
      invariant Chunks(rs, addr, end) == cs + ChunksFrom(rs, start, end)
      decreases end - start
    {
      var top := FindTop(start, end, rs);
      LastTopIs(rs, start, end);
      assert !Stalls(rs, end, start);
      cs := cs + [Range(start, top)];
      start := BumpUp(top, rs);
    }
    assert ChunksFrom(rs, start, end) == [] && cs + [] == cs;
    ChunksAreOk(rs, addr, end);
    CleanIffOrdered(rs, addr, end, cs);
  }

  // ----- what the allocator makes of the chunks

  /** The frames of a region are frames of memory. */
  ghost predicate RegionExists(allocator: Allocator, addr: nat, end: nat)
    reads allocator, allocator.ram
  {
    forall f :: f in WholePages(addr, end) ==> f in allocator.ram.frames
  }

  /** A chunk that ends at 4 GiB: without memory there, a link is written to nowhere. */
  ghost predicate EndsAt4G(cs: seq<Range>, i: nat) {
    i < |cs| && UpToPage(cs[i].start) < DownToPage(cs[i].end) == LIMIT_4G
  }

  ghost predicate OneEndsAt4G(cs: seq<Range>, n: nat) {
    exists j: nat :: j < n && EndsAt4G(cs, j)
  }

  lemma OneMoreChunkEnds(cs: seq<Range>, n: nat)
    ensures OneEndsAt4G(cs, n + 1) <==> OneEndsAt4G(cs, n) || EndsAt4G(cs, n)
    ensures !OneEndsAt4G(cs, 0)
  {
  }

  ghost predicate RegionIsNew(allocator: Allocator, addr: nat, end: nat)
    reads allocator, allocator.above, allocator.below
  {
    forall f :: f in WholePages(addr, end) ==> f !in allocator.Free()
  }

  /** The next chunk brings frames of the region that the chunks before it did not bring. */
  lemma NextIsNew(allocator: Allocator, free: set<Frame>, rs: seq<Range>, addr: nat, end: nat, cs: seq<Range>, i: nat)
    requires ChunksOk(rs, addr, end, cs) && i < |cs| && RegionExists(allocator, addr, end)
    ensures allocator.ChunkExists(cs[i].start, cs[i].end)
    ensures allocator.Free() == free + ChunkFrames(cs[..i]) && (forall f :: f in WholePages(addr, end) ==>
      f !in free) ==>
      allocator.ChunkIsNew(cs[i].start, cs[i].end)
    ensures ChunkFrames(cs[..i + 1]) == ChunkFrames(cs[..i]) + WholePages(cs[i].start, cs[i].end)
  {
    assert ChunkOk(rs, addr, end, cs[i]);
    forall f | f in WholePages(cs[i].start, cs[i].end)
      ensures f in WholePages(addr, end) && f !in ChunkFrames(cs[..i])
    {
      assert PageInside(f, addr, end) && f in WholePages(addr, end);
      InChunkFrames(cs[..i], f);
    }
    assert cs[..i + 1][..i] == cs[..i];
  }

  lemma ChunkInside(rs: seq<Range>, addr: nat, end: nat, cs: seq<Range>, i: nat)
    requires ChunksOk(rs, addr, end, cs) && i < |cs|
    ensures addr <= cs[i].start < cs[i].end <= end
  {
    assert ChunkOk(rs, addr, end, cs[i]);
  }

  /** The calls of `add_physical_chunk`. */
  method AddAll(allocator: Allocator, cs: seq<Range>, at4G: bool, ghost rs: seq<Range>, ghost addr: nat, ghost end: nat)
    returns (stray: bool)
    requires allocator.Ready() && end + 4095 < 0x100_0000_0000_0000 && ChunksOk(rs, addr, end, cs)
    requires RegionExists(allocator, addr, end) && at4G == (LIMIT_4G in allocator.ram.frames)
    modifies allocator.ram, allocator.above, allocator.below
    ensures stray <==> !at4G && OneEndsAt4G(cs, |cs|)
    ensures allocator.Ready() && allocator.ram.frames.Keys == old(allocator.ram.frames.Keys)
    ensures old(allocator.Valid() && RegionIsNew(allocator, addr, end)) && AllSound(cs) ==>
      allocator.Valid() && allocator.Free() == old(allocator.Free()) + ChunkFrames(cs)
  {
    assert cs[..0] == [] && ChunkFrames([]) == {};
    OneMoreChunkEnds(cs, 0);
    hide WholePages, Allocator.Valid, Allocator.Free, ChunkFrames, Sound, OneEndsAt4G, ChunksOk, Allocator.Ready;
    ghost var known, free := allocator.Valid() && RegionIsNew(allocator, addr, end), allocator.Free();
    stray := false;
    for i := 0 to |cs|
      invariant allocator.Ready() && allocator.ram.frames.Keys == old(allocator.ram.frames.Keys)
      invariant stray <==> !at4G && OneEndsAt4G(cs, i)
      invariant known && AllSound(cs) ==> allocator.Valid() && allocator.Free() == free + ChunkFrames(cs[..i])
    {
      NextIsNew(allocator, free, rs, addr, end, cs, i);
      ChunkInside(rs, addr, end, cs, i);
      var next := allocator.AddChunk(cs[i].start, cs[i].end, at4G);
      OneMoreChunkEnds(cs, i);
      stray := stray || next;
    }
    assert cs[..|cs|] == cs;
  }

  lemma AllAdded(allocator: Allocator, rs: seq<Range>, addr: nat, end: nat, cs: seq<Range>, free: set<Frame>)
    requires NeverStalls(rs, addr, end) && ChunksOk(rs, addr, end, cs) && allocator.Free() == free + ChunkFrames(cs)
    ensures Ordered(rs, addr, end) ==>
      forall f :: f in allocator.Free() <==> f in free || Unreserved(rs, addr, end, f)
  {
    if Ordered(rs, addr, end) {
      forall f: Frame
        ensures f in ChunkFrames(cs) <==> Unreserved(rs, addr, end, f)
      {
        ChunksAreUnreserved(rs, addr, end, cs, f);
      }
    }
  }

  /**
    `consider_physical_memory`, for every list of reservations on which it ends. If no chunk begins at frame 0 or
    ends at 4 GiB, exactly the whole pages of the chunks become free; for an ordered list these are the pages of
    the region without a reserved address. Without memory at 4 GiB (`at4G`), `stray` says whether a link was
    written there: exactly if a chunk of the run ends there.
   */
  method ConsiderMemory(allocator: Allocator, addr: nat, size: nat, rs: seq<Range>, at4G: bool) returns (stray: bool)
    requires NeverStalls(rs, addr, addr + size) && addr + size + 4095 < 0x100_0000_0000_0000
    requires allocator.Ready() && RegionExists(allocator, addr, addr + size)
    requires at4G == (LIMIT_4G in allocator.ram.frames)
    modifies allocator.ram, allocator.above, allocator.below
    ensures var cs := Chunks(rs, addr, addr + size); stray <==> !at4G && OneEndsAt4G(cs, |cs|)
    ensures allocator.Ready() && allocator.ram.frames.Keys == old(allocator.ram.frames.Keys)
    ensures old(allocator.Valid() && RegionIsNew(allocator, addr, addr + size))
            && AllSound(Chunks(rs, addr, addr + size)) ==>
      && allocator.Valid() && allocator.Free() == old(allocator.Free()) + ChunkFrames(Chunks(rs, addr, addr + size))
      && (Ordered(rs, addr, addr + size) ==>
            forall f :: f in allocator.Free() <==> f in old(allocator.Free()) || Unreserved(rs, addr, addr + size, f))
  {
    hide *;
    ghost var known, free := allocator.Valid() && RegionIsNew(allocator, addr, addr + size), allocator.Free();
    var cs := FindChunks(addr, addr + size, rs);
    stray := AddAll(allocator, cs, at4G, rs, addr, addr + size);
    if known && AllSound(cs) {
      AllAdded(allocator, rs, addr, addr + size, cs, free);
    }
  }
}
