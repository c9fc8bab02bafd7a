/** The physical allocator of `mm/physical_alloc.c`: two free lists whose links lie in the free frames themselves. */
module PhysicalAlloc {
  import opened Integers
  import opened PhysicalMemory

  /** `struct physical_free_list` at the start of `frame`: that frame and those after it are free, `length` in all. */
  datatype Link = Link(frame: nat, length: nat) {
    ghost predicate Has(f: Frame) { frame <= f < frame + length }
  }

  const LIMIT_4G: nat := 0x10_0000

  /** Reading from the head on, memory holds exactly these links. */
  ghost predicate Chain(m: Memory, head: nat, links: seq<Link>)
    decreases links
  {
    if links == [] then head == 0
    else
      var f := links[0].frame;
      && head == f * PAGE_SIZE && f != 0 && f < 0x1000_0000_0000 && f in m && |m[f]| == 512
      && m[f][1] == links[0].length && Chain(m, m[f][0], links[1..])
  }

  ghost function FramesOf(link: Link): set<Frame> {
    set f: Frame | link.frame <= f < link.frame + link.length && link.Has(f)
  }

  ghost function AllFrames(links: seq<Link>): set<Frame> {
    if links == [] then {} else FramesOf(links[0]) + AllFrames(links[1..])
  }

  /** No link is empty, no frame is in two links, and every frame is a frame of memory in `[lo, hi)`. */
  ghost predicate LinksOk(m: Memory, links: seq<Link>, lo: nat, hi: nat) {
    links != [] ==>
      var l := links[0];
      && l.length >= 1 && lo <= l.frame && l.frame + l.length <= hi && l.frame > 0
      && (forall f :: l.frame <= f < l.frame + l.length ==> f in m)
      && FramesOf(l) !! AllFrames(links[1..]) && LinksOk(m, links[1..], lo, hi)
  }

  ghost predicate ListOk(m: Memory, head: nat, links: seq<Link>, lo: nat, hi: nat) {
    Chain(m, head, links) && LinksOk(m, links, lo, hi)
  }

  /** What is written outside the free frames does not disturb the list. */
  lemma {:induction false} ListFrame(m: Memory, m': Memory, fs: set<Frame>, head: nat, links: seq<Link>, lo: nat,
                                     hi: nat)
    requires ListOk(m, head, links, lo, hi) && SameOutside(m, m', fs) && fs !! AllFrames(links)
    ensures ListOk(m', head, links, lo, hi)
    decreases links
  {
    if links != [] {
      var f := links[0].frame;
      assert f in FramesOf(links[0]);
      ListFrame(m, m', fs, m[f][0], links[1..], lo, hi);
    }
  }

  lemma {:induction false} FramesWithin(m: Memory, links: seq<Link>, lo: nat, hi: nat)
    requires LinksOk(m, links, lo, hi)
    ensures forall f :: f in AllFrames(links) ==> lo <= f < hi && f in m && f > 0
  {
    if links != [] {
      FramesWithin(m, links[1..], lo, hi);
    }
  }

  /** Memory after a link was written to the start of `f`. */
  function Linked(m: Memory, f: Frame, next: u64, length: u64): Memory
    requires f in m && |m[f]| == 512
  {
    Stored(Stored(m, f, 0, next), f, 1, length)
  }

  lemma LinkedIs(m: Memory, f: Frame, next: u64, length: u64)
    requires MemoryOk(m) && f in m
    ensures var m' := Linked(m, f, next, length);
      MemoryOk(m') && SameOutside(m, m', {f}) && m'[f][0] == next && m'[f][1] == length
  {
  }

  lemma PushedOk(m: Memory, head: u64, links: seq<Link>, lo: nat, hi: nat, f: Frame, length: nat)
    requires MemoryOk(m) && ListOk(m, head, links, lo, hi) && f in m && length >= 1 && f > 0
    requires lo <= f && f + length <= hi <= 0x1000_0000_0000
    requires forall g: Frame :: f <= g < f + length ==> g in m && g !in AllFrames(links)
    ensures ListOk(Linked(m, f, head, length), f * PAGE_SIZE, [Link(f, length)] + links, lo, hi)
    ensures AllFrames([Link(f, length)] + links) == AllFrames(links) + FramesOf(Link(f, length))
  {
    var m' := Linked(m, f, head, length);
    LinkedIs(m, f, head, length);
    assert f in FramesOf(Link(f, length));
    ListFrame(m, m', {f}, head, links, lo, hi);
    var links' := [Link(f, length)] + links;
    assert links'[1..] == links;
  }

  /** The list after `physical_free_list_pop` took the first frame. */
  function Popped(links: seq<Link>): seq<Link>
    requires links != []
  {
    if links[0].length <= 1 then links[1..] else [Link(links[0].frame + 1, links[0].length - 1)] + links[1..]
  }

  lemma PoppedOk(m: Memory, head: nat, links: seq<Link>, lo: nat, hi: nat)
    requires MemoryOk(m) && ListOk(m, head, links, lo, hi) && links != [] && hi <= 0x1000_0000_0000
    ensures var l := links[0]; var f := l.frame;
      && head == f * PAGE_SIZE && f in m && f in AllFrames(links) && AllFrames(Popped(links)) == AllFrames(links) - {f}
      && m[f][1] == l.length >= 1
      && (l.length == 1 ==> ListOk(m, m[f][0], Popped(links), lo, hi))
      && (l.length > 1 ==>
            f + 1 < 0x1000_0000_0000 && f + 1 in m && f + 1 in AllFrames(links)
            && ListOk(Linked(m, f + 1, m[f][0], l.length - 1), (f + 1) * PAGE_SIZE, Popped(links), lo, hi))
  {
    var l := links[0];
    var f := l.frame;
    FirstFrame(l);
    hide FramesOf, Linked;
    if l.length > 1 {
      var rest := Link(f + 1, l.length - 1);
      forall g: Frame | f + 1 <= g < f + 1 + rest.length
        ensures g in m && g !in AllFrames(links[1..])
      {
        assert l.Has(g) && g in FramesOf(l);
      }
      PushedOk(m, m[f][0], links[1..], lo, hi, f + 1, rest.length);
      assert f + 1 in FramesOf(l);
    }
  }

  lemma FirstFrame(l: Link)
    requires 0 < l.length && l.frame + l.length <= 0x1000_0000_0000
    ensures FramesOf(l) == {l.frame} + FramesOf(Link(l.frame + 1, l.length - 1))
    ensures l.frame !in FramesOf(Link(l.frame + 1, l.length - 1))
    ensures forall g: Frame :: l.Has(g) <==> g in FramesOf(l)
    ensures l.length == 1 ==> FramesOf(l) == {l.frame}
  {
  }

  lemma HeadIs(m: Memory, head: nat, links: seq<Link>, lo: nat, hi: nat)
    requires ListOk(m, head, links, lo, hi)
    ensures head == 0 <==> links == []
    ensures links == [] <==> AllFrames(links) == {}
  {
    if links != [] {
      assert links[0].frame in FramesOf(links[0]);
    }
  }

  /** One of the two lists. */
  class FreeList {
    const ram: Ram
    var head: u64
    ghost var links: seq<Link>

    constructor (ram: Ram)
      ensures this.ram == ram && head == 0 && links == []
    {
      this.ram := ram;
      head, links := 0, [];
    }

    ghost predicate Valid(lo: nat, hi: nat)
      reads this, ram
    {
      MemoryOk(ram.frames) && ListOk(ram.frames, head, links, lo, hi) && hi <= 0x1000_0000_0000
    }

    ghost function Frames(): set<Frame>
      reads this
    {
      AllFrames(links)
    }

    /** `physical_free_list_push`. */
    method Push(length: u64, start: Frame)
      requires MemoryOk(ram.frames) && start in ram.frames
      modifies this, ram
      ensures ram.frames == Linked(old(ram.frames), start, old(head), length) && head == start * PAGE_SIZE
      ensures MemoryOk(ram.frames) && links == [Link(start, length)] + old(links)
    {
      ram.Write(start, 0, head);
      ram.Write(start, 1, length);
      head := start * PAGE_SIZE;
      links := [Link(start, length)] + links;
    }

    /** `physical_free_list_push` of a link where there is no memory: only the head changes. */
    method PushStray(start: Frame)
      modifies this
      ensures head == start * PAGE_SIZE && links == old(links)
    {
      head := start * PAGE_SIZE;
    }

    /** `physical_free_list_pop`: takes a frame of the list away, unless there is none. */
    method Pop(ghost lo: nat, ghost hi: nat) returns (ok: bool, out: Frame)
      requires Valid(lo, hi)
      modifies this, ram
      ensures Valid(lo, hi) && SameOutside(old(ram.frames), ram.frames, old(Frames()))
      ensures ok <==> old(Frames()) != {}
      ensures ok ==> out in old(Frames()) && Frames() == old(Frames()) - {out}
      ensures !ok ==> links == old(links) && head == old(head) && ram.frames == old(ram.frames)
    {
      hide ListOk, LinksOk, Chain, AllFrames, Popped;
      HeadIs(ram.frames, head, links, lo, hi);
      if head == 0 {
        return false, 0;
      }
      PoppedOk(ram.frames, head, links, lo, hi);
      out := head / PAGE_SIZE;
      var next := ram.Read(out, 0);
      var length := ram.Read(out, 1);
      if length == 1 {
        head := next;
      } else {
        LinkedIs(ram.frames, out + 1, next, length - 1);
        head := (out + 1) * PAGE_SIZE;
        ram.Write(out + 1, 0, next);
        ram.Write(out + 1, 1, length - 1);
      }
      links := Popped(links);
      ok := true;
    }
  }

  // ----- the allocator

  ghost predicate PageInside(f: Frame, start: nat, end: nat) {
    start <= f * PAGE_SIZE && f * PAGE_SIZE + PAGE_SIZE <= end
  }

  /** The frames that lie inside `[start, end)` as a whole. */
  ghost function WholePages(start: nat, end: nat): set<Frame> {
    set f: Frame | 0 <= f <= end && PageInside(f, start, end)
  }

  lemma WholePagesAre(start: nat, end: nat, lo: nat, hi: nat)
    requires lo == (start + 4095) / 4096 && hi == end / 4096 && end < 0x100_0000_0000_0000
    ensures lo < hi ==> WholePages(start, end) == FramesOf(Link(lo, hi - lo))
    ensures lo >= hi ==> WholePages(start, end) == {}
  {
    forall f: Frame
      ensures PageInside(f, start, end) <==> lo <= f < hi
    {
    }
    if lo < hi {
      forall f: Frame | f in FramesOf(Link(lo, hi - lo))
        ensures PageInside(f, start, end) && f <= end
      {
        assert Link(lo, hi - lo).Has(f);
      }
      forall f: Frame | PageInside(f, start, end)
        ensures f in FramesOf(Link(lo, hi - lo))
      {
        assert Link(lo, hi - lo).Has(f);
      }
    }
  }

  /** No frame of the two lists is frame 0, and no list starts with an empty link. */
  lemma NeverZero(m: Memory, head: nat, links: seq<Link>, lo: nat, hi: nat)
    requires ListOk(m, head, links, lo, hi)
    ensures 0 !in AllFrames(links)
    ensures head != 0 ==> links != [] && head == links[0].frame * PAGE_SIZE && links[0].frame in m
    ensures head != 0 ==> |m[links[0].frame]| == 512 && m[links[0].frame][1] >= 1
  {
    FramesWithin(m, links, lo, hi);
  }

  /** The whole pages do not begin at frame 0, and do not end at exactly 4 GiB. */
  predicate Sound(start: nat, end: nat) {
    var lo, hi := UpToPage(start), DownToPage(end);
    lo >= hi || (lo > 0 && hi != LIMIT_4G)
  }

  /** 2 GiB of memory from 0x8000_0000 on, and memory that begins at frame 0. */
  lemma UnsoundChunks()
    ensures !Sound(0x8000_0000, 0x1_0000_0000) && !Sound(0, 0x1000)
  {
  }

  function UpToPage(addr: nat): nat { (addr + 4095) / 4096 }
  function DownToPage(addr: nat): nat { addr / 4096 }

  lemma SplitFrames(lo: nat, hi: nat)
    requires lo < LIMIT_4G <= hi
    ensures FramesOf(Link(lo, hi - lo)) == FramesOf(Link(lo, LIMIT_4G - lo)) + FramesOf(Link(LIMIT_4G, hi - LIMIT_4G))
    ensures var low := FramesOf(Link(lo, LIMIT_4G - lo)); forall f :: f in low ==> f < LIMIT_4G
  {
    var all, low, high := Link(lo, hi - lo), Link(lo, LIMIT_4G - lo), Link(LIMIT_4G, hi - LIMIT_4G);
    forall f: Frame
      ensures all.Has(f) <==> low.Has(f) || high.Has(f)
    {
    }
  }

  class Allocator {
    const ram: Ram
    const above: FreeList
    const below: FreeList

    constructor (ram: Ram)
      requires MemoryOk(ram.frames)
      ensures Valid() && Free() == {} && this.ram == ram && fresh(above) && fresh(below)
    {
      this.ram := ram;
      above := new FreeList(ram);
      below := new FreeList(ram);
    }

    /** The parts belong together, whatever the lists hold. */
    ghost predicate Ready()
      reads this, ram, above, below
    {
      above.ram == ram && below.ram == ram && above != below && MemoryOk(ram.frames)
    }

    ghost predicate Valid()
      reads this, ram, above, below
    {
      && Ready() && Holds(above.links, below.links, Free())
    }

    ghost function Free(): set<Frame>
      reads above, below
    {
      above.Frames() + below.Frames()
    }

    /** The lists in memory are these, and they hold the frames of `free`. */
    ghost predicate Holds(a: seq<Link>, b: seq<Link>, free: set<Frame>)
      reads this, ram, above, below
    {
      && ListOk(ram.frames, above.head, a, LIMIT_4G, 0x1000_0000_0000)
      && ListOk(ram.frames, below.head, b, 0, LIMIT_4G)
      && AllFrames(a) + AllFrames(b) == free
    }

    /** Which frames an allocation may return. */
    ghost function Eligible(below4G: bool): set<Frame>
      reads above, below
    {
      if below4G then set f | f in Free() && f < LIMIT_4G else Free()
    }

    lemma Bounds()
      requires Valid()
      ensures forall f :: f in above.Frames() ==> LIMIT_4G <= f && f in ram.frames && f > 0
      ensures forall f :: f in below.Frames() ==> 0 < f < LIMIT_4G && f in ram.frames
    {
      FramesWithin(ram.frames, above.links, LIMIT_4G, 0x1000_0000_0000);
      FramesWithin(ram.frames, below.links, 0, LIMIT_4G);
    }

    lemma MemoryIs()
      requires Valid()
      ensures MemoryOk(ram.frames)
    {
    }

    /** `mm_alloc_physical`. */
    method Alloc(below4G: bool) returns (ok: bool, out: Frame)
      requires Valid()
      modifies ram, above, below
      ensures Valid() && SameOutside(old(ram.frames), ram.frames, old(Free()))
      ensures ok <==> old(Eligible(below4G)) != {}
      ensures ok ==> out in old(Eligible(below4G)) && out > 0 && out in ram.frames && Free() == old(Free()) - {out}
      ensures ok && !below4G && out < LIMIT_4G ==> forall f :: f in old(Free()) ==> f < LIMIT_4G
      ensures ok ==> out in old(Free())
      ensures !ok ==> ram.frames == old(ram.frames) && Free() == old(Free()) && (!below4G ==> Free() == {})
    {
      Bounds();
      hide ListOk, AllFrames;
      ghost var m := ram.frames;
      if !below4G {
        ok, out := above.Pop(LIMIT_4G, 0x1000_0000_0000);
        ListFrame(m, ram.frames, old(above.Frames()), below.head, below.links, 0, LIMIT_4G);
        if ok {
          return;
        }
        m := ram.frames;
      }
      ok, out := below.Pop(0, LIMIT_4G);
      ListFrame(m, ram.frames, old(below.Frames()), above.head, above.links, LIMIT_4G, 0x1000_0000_0000);
    }

    /** A client writes a word to a frame that is not free: the lists stay. */
    method WriteHeld(f: Frame, index: nat, w: u64)
      requires Valid() && f in ram.frames && f !in Free() && index < 512
      modifies ram
      ensures Valid() && ram.frames == Stored(old(ram.frames), f, index, w)
    {
      ghost var m := ram.frames;
      ram.Write(f, index, w);
      ListFrame(m, ram.frames, {f}, above.head, above.links, LIMIT_4G, 0x1000_0000_0000);
      ListFrame(m, ram.frames, {f}, below.head, below.links, 0, LIMIT_4G);
    }

    /** A client clears a frame that is not free. */
    method ZeroHeld(f: Frame)
      requires Valid() && f in ram.frames && f !in Free()
      modifies ram
      ensures Valid() && SameOutside(old(ram.frames), ram.frames, {f})
      ensures forall i :: 0 <= i < 512 ==> ram.frames[f][i] == 0
    {
      ghost var m := ram.frames;
      ram.Zero(f);
      ListFrame(m, ram.frames, {f}, above.head, above.links, LIMIT_4G, 0x1000_0000_0000);
      ListFrame(m, ram.frames, {f}, below.head, below.links, 0, LIMIT_4G);
    }

    /** Whether `length` frames from `start` on can become a link of the list for `[lo, hi)`. */
    ghost predicate Givable(length: nat, start: Frame, lo: nat, hi: nat)
      reads ram, above, below
    {
      && length >= 1 && start > 0 && lo <= start && start + length <= hi
      && (forall f: Frame :: start <= f < start + length ==> f in ram.frames && f !in Free())
    }

    /** A push on the list above 4 GiB. */
    method PushAbove(length: u64, start: Frame)
      requires MemoryOk(ram.frames) && start in ram.frames && above.ram == ram && below.ram == ram && above != below
      modifies ram, above
      ensures MemoryOk(ram.frames) && ram.frames == Linked(old(ram.frames), start, old(above.head), length)
      ensures above.head == start * PAGE_SIZE && SameOutside(old(ram.frames), ram.frames, {start})
      ensures old(Valid() && Givable(length, start, LIMIT_4G, 0x1000_0000_0000)) ==>
        Valid() && Free() == old(Free()) + FramesOf(Link(start, length))
    {
      ghost var m := ram.frames;
      LinkedIs(m, start, above.head, length);
      if Valid() && Givable(length, start, LIMIT_4G, 0x1000_0000_0000) {
        PushedOk(m, above.head, above.links, LIMIT_4G, 0x1000_0000_0000, start, length);
        ListFrame(m, Linked(m, start, above.head, length), {start}, below.head, below.links, 0, LIMIT_4G);
      }
      above.Push(length, start);
    }

    /** A push on the list below 4 GiB. */
    method PushBelow(length: u64, start: Frame)
      requires MemoryOk(ram.frames) && start in ram.frames && above.ram == ram && below.ram == ram && above != below
      modifies ram, below
      ensures MemoryOk(ram.frames) && ram.frames == Linked(old(ram.frames), start, old(below.head), length)
      ensures below.head == start * PAGE_SIZE && SameOutside(old(ram.frames), ram.frames, {start})
      ensures old(Valid() && Givable(length, start, 0, LIMIT_4G)) ==>
        && Valid() && Free() == old(Free()) + FramesOf(Link(start, length))
        && below.Frames() == old(below.Frames()) + FramesOf(Link(start, length))
    {
      ghost var m := ram.frames;
      LinkedIs(m, start, below.head, length);
      if Valid() && Givable(length, start, 0, LIMIT_4G) {
        PushedOk(m, below.head, below.links, 0, LIMIT_4G, start, length);
        var m' := Linked(m, start, below.head, length);
        ListFrame(m, m', {start}, above.head, above.links, LIMIT_4G, 0x1000_0000_0000);
      }
      below.Push(length, start);
    }

    /** `mm_free_physical`. */
    method FreeFrame(frame: Frame)
      requires Valid() && frame in ram.frames && frame !in Free() && frame != 0
      modifies ram, above, below
      ensures Valid() && Free() == old(Free()) + {frame} && SameOutside(old(ram.frames), ram.frames, {frame})
    {
      assert FramesOf(Link(frame, 1)) == {frame};
      if frame >= LIMIT_4G {
        PushAbove(1, frame);
      } else {
        PushBelow(1, frame);
      }
    }

    lemma ChunkPages(start: nat, end: nat, lo: nat, hi: nat)
      requires lo == UpToPage(start) && hi == DownToPage(end) && end < 0x100_0000_0000_0000 && lo < hi
      requires ChunkExists(start, end)
      ensures PagesExist(lo, hi) && (Valid() && ChunkIsNew(start, end) ==> PagesAreNew(lo, hi))
    {
      WholePagesAre(start, end, lo, hi);
      forall f: Frame | lo <= f < hi
        ensures f in WholePages(start, end)
      {
        assert Link(lo, hi - lo).Has(f);
      }
    }

    /** Frame 0 can be in no list, and an empty link is none. */
    lemma Unsound(free: set<Frame>, zero: bool)
      requires if zero then 0 in free else above.head == LIMIT_4G * PAGE_SIZE && NothingAt4G()
      ensures forall a, b :: !Holds(a, b, free)
    {
      forall a, b | Holds(a, b, free)
        ensures false
      {
        NeverZero(ram.frames, above.head, a, LIMIT_4G, 0x1000_0000_0000);
        NeverZero(ram.frames, below.head, b, 0, LIMIT_4G);
      }
    }

    /** At 4 GiB there is no memory, or a link of no frames. */
    ghost predicate NothingAt4G()
      reads ram
    {
      LIMIT_4G in ram.frames ==> |ram.frames[LIMIT_4G]| == 512 && ram.frames[LIMIT_4G][1] == 0
    }

    /** The frames of the chunk are frames of memory. */
    ghost predicate ChunkExists(start: nat, end: nat)
      reads ram
    {
      forall f :: f in WholePages(start, end) ==> f in ram.frames
    }

    /** None of the chunk's frames is free yet. */
    ghost predicate ChunkIsNew(start: nat, end: nat)
      reads above, below
    {
      forall f :: f in WholePages(start, end) ==> f !in Free()
    }

    /** All pages from `lo` up to `hi` are frames of memory; they are new if none of them is free. */
    ghost predicate PagesExist(lo: nat, hi: nat)
      reads ram
    {
      && lo < hi < 0x1000_0000_0000
      && forall f: Frame :: lo <= f < hi ==> f in ram.frames
    }

    ghost predicate PagesAreNew(lo: nat, hi: nat)
      reads this, ram, above, below
    {
      Valid() && forall f: Frame :: lo <= f < hi ==> f !in Free()
    }

    /** The list below 4 GiB holds these frames. */
    ghost predicate BelowHolds(free: set<Frame>)
      reads ram, below
    {
      ListOk(ram.frames, below.head, below.links, 0, LIMIT_4G) && below.Frames() == free
    }

    /** Nothing that is written at 4 GiB disturbs it. */
    lemma BelowStays(m: Memory, free: set<Frame>)
      requires MemoryOk(m) && ListOk(m, below.head, below.links, 0, LIMIT_4G) && below.Frames() == free
      requires SameOutside(m, ram.frames, {LIMIT_4G})
      ensures BelowHolds(free)
    {
      FramesWithin(m, below.links, 0, LIMIT_4G);
      ListFrame(m, ram.frames, {LIMIT_4G}, below.head, below.links, 0, LIMIT_4G);
    }

    lemma BelowIs()
      requires Valid()
      ensures MemoryOk(ram.frames) && ListOk(ram.frames, below.head, below.links, 0, LIMIT_4G)
    {
    }

    /** The chunk as a page range that reaches 4 GiB from below. */
    method PushAcross(lo: Frame, hi: nat, at4G: bool) returns (stray: bool)
      requires Ready() && lo < LIMIT_4G <= hi && PagesExist(lo, hi) && at4G == (LIMIT_4G in ram.frames)
      modifies ram, above, below
      ensures old(PagesAreNew(lo, hi)) && lo > 0 && hi != LIMIT_4G ==>
        Valid() && Free() == old(Free()) + FramesOf(Link(lo, hi - lo))
      ensures Ready() && SameOutside(old(ram.frames), ram.frames, {lo, LIMIT_4G})
      ensures hi == LIMIT_4G ==> above.head == LIMIT_4G * PAGE_SIZE && NothingAt4G()
      ensures stray == (hi == LIMIT_4G && !at4G)
      ensures old(PagesAreNew(lo, hi)) && lo > 0 && hi == LIMIT_4G ==>
        BelowHolds(old(below.Frames()) + FramesOf(Link(lo, hi - lo)))
    {
      ghost var low, free, m0 := below.Frames(), Free(), ram.frames;
      hide *;
      PushLow(lo, hi);
      ghost var m1, free1, low1 := ram.frames, Free(), below.Frames();
      InMemory4G(lo, hi);
      stray := PushTop(hi, at4G);
      Composed(m0, m1, ram.frames, lo);
      SplitFrames(lo, hi);
      NoFrames();
      Together(free, low, free1, low1, FramesOf(Link(lo, LIMIT_4G - lo)), FramesOf(Link(LIMIT_4G, hi - LIMIT_4G)));
    }

    /** The part of the chunk below 4 GiB. */
    method PushLow(lo: Frame, hi: nat)
      requires Ready() && lo < LIMIT_4G <= hi && PagesExist(lo, hi)
      modifies ram, below
      ensures Ready() && PagesExist(lo, hi) && SameOutside(old(ram.frames), ram.frames, {lo})
      ensures old(PagesAreNew(lo, hi)) && lo > 0 ==>
        && Valid() && Free() == old(Free()) + FramesOf(Link(lo, LIMIT_4G - lo))
        && below.Frames() == old(below.Frames()) + FramesOf(Link(lo, LIMIT_4G - lo))
        && ListOk(ram.frames, below.head, below.links, 0, LIMIT_4G)
        && (hi > LIMIT_4G ==> Givable(hi - LIMIT_4G, LIMIT_4G, LIMIT_4G, 0x1000_0000_0000))
    {
      ghost var known, free, m0 := PagesAreNew(lo, hi) && lo > 0, Free(), ram.frames;
      hide *;
      if known {
        LowHalf(lo, hi);
      }
      InMemory4G(lo, hi);
      ReadyIs();
      PushBelow(LIMIT_4G - lo, lo);
      ReadyIs();
      StillExist(m0, lo, hi);
      if known {
        BelowIs();
        if hi > LIMIT_4G {
          HighHalf(lo, hi, free);
        }
      }
    }

    lemma StillExist(m0: Memory, lo: Frame, hi: nat)
      requires SameOutside(m0, ram.frames, {lo}) && lo < hi < 0x1000_0000_0000
      requires forall f: Frame :: lo <= f < hi ==> f in m0
      ensures PagesExist(lo, hi)
    {
    }

    static lemma NoFrames()
      ensures FramesOf(Link(LIMIT_4G, 0)) == {}
    {
    }

    static lemma Composed(m0: Memory, m1: Memory, m2: Memory, lo: Frame)
      requires SameOutside(m0, m1, {lo}) && SameOutside(m1, m2, {LIMIT_4G})
      ensures SameOutside(m0, m2, {lo, LIMIT_4G})
    {
    }

    static lemma Together(free: set<Frame>, low: set<Frame>, free1: set<Frame>, low1: set<Frame>, a: set<Frame>,
                          b: set<Frame>)
      ensures free1 == free + a ==> free1 + b == free + (a + b)
      ensures low1 == low + a && b == {} ==> low1 == low + (a + b)
    {
    }

    /** The part of the chunk from 4 GiB on, which may be empty. */
    method PushTop(hi: nat, at4G: bool) returns (stray: bool)
      requires Ready() && LIMIT_4G <= hi < 0x1000_0000_0000 && at4G == (LIMIT_4G in ram.frames)
      requires LIMIT_4G < hi ==> at4G
      modifies ram, above
      ensures Ready() && SameOutside(old(ram.frames), ram.frames, {LIMIT_4G}) && stray == !at4G
      ensures old(Valid() && Givable(hi - LIMIT_4G, LIMIT_4G, LIMIT_4G, 0x1000_0000_0000)) ==>
        Valid() && Free() == old(Free()) + FramesOf(Link(LIMIT_4G, hi - LIMIT_4G))
      ensures hi == LIMIT_4G ==> above.head == LIMIT_4G * PAGE_SIZE && NothingAt4G()
      ensures old(ListOk(ram.frames, below.head, below.links, 0, LIMIT_4G)) ==> BelowHolds(below.Frames())
    {
      ghost var m, known := ram.frames, ListOk(ram.frames, below.head, below.links, 0, LIMIT_4G);
      hide *;
      ReadyIs();
      stray := !at4G;
      if at4G {
        ghost var next := above.head;
        PushAbove(hi - LIMIT_4G, LIMIT_4G);
        TopLength(m, hi, next);
      } else {
        above.PushStray(LIMIT_4G);
        NotGivable(hi);
        Unwritten(m);
      }
      ReadyIs();
      AtTop();
      if known {
        BelowStays(m, below.Frames());
      }
    }

    lemma TopLength(m: Memory, hi: nat, next: u64)
      requires MemoryOk(m) && LIMIT_4G in m && LIMIT_4G <= hi < 0x1000_0000_0000
      requires ram.frames == Linked(m, LIMIT_4G, next, hi - LIMIT_4G)
      ensures hi == LIMIT_4G ==> LIMIT_4G in ram.frames && |ram.frames[LIMIT_4G]| == 512 && ram.frames[LIMIT_4G][1] == 0
    {
    }

    lemma NotGivable(hi: nat)
      requires LIMIT_4G == hi
      ensures !Givable(hi - LIMIT_4G, LIMIT_4G, LIMIT_4G, 0x1000_0000_0000)
    {
    }

    lemma Unwritten(m: Memory)
      requires ram.frames == m
      ensures SameOutside(m, ram.frames, {LIMIT_4G})
    {
    }

    lemma ReadyIs()
      ensures Ready() <==> above.ram == ram && below.ram == ram && above != below && MemoryOk(ram.frames)
    {
    }

    /** The pages below 4 GiB can become a link. */
    lemma LowHalf(lo: Frame, hi: nat)
      requires PagesAreNew(lo, hi) && PagesExist(lo, hi) && 0 < lo < LIMIT_4G <= hi
      ensures Valid() && Givable(LIMIT_4G - lo, lo, 0, LIMIT_4G)
    {
      hide ListOk, AllFrames;
    }

    /** And then those above. */
    lemma HighHalf(lo: Frame, hi: nat, free: set<Frame>)
      requires Valid() && PagesExist(lo, hi) && lo < LIMIT_4G < hi
      requires Free() == free + FramesOf(Link(lo, LIMIT_4G - lo)) && forall f: Frame :: lo <= f < hi ==> f !in free
      ensures Valid() && Givable(hi - LIMIT_4G, LIMIT_4G, LIMIT_4G, 0x1000_0000_0000)
    {
      hide ListOk, AllFrames;
      SplitFrames(lo, hi);
    }

    /** An empty link at 4 GiB, or nothing. */
    lemma AtTop()
      ensures NothingAt4G() <==>
        (LIMIT_4G in ram.frames ==> |ram.frames[LIMIT_4G]| == 512 && ram.frames[LIMIT_4G][1] == 0)
    {
    }

    lemma InMemory4G(lo: Frame, hi: nat)
      requires PagesExist(lo, hi) && lo < LIMIT_4G
      ensures lo < hi < 0x1000_0000_0000 && (LIMIT_4G < hi ==> LIMIT_4G in ram.frames)
      ensures forall f: Frame :: lo <= f < hi ==> f in ram.frames
    {
    }

    /** The chunk as a page range, when it is not empty. */
    method PushChunk(lo: Frame, hi: nat, at4G: bool) returns (stray: bool)
      requires Ready() && PagesExist(lo, hi) && at4G == (LIMIT_4G in ram.frames)
      modifies ram, above, below
      ensures old(PagesAreNew(lo, hi)) && lo > 0 && hi != LIMIT_4G ==>
        Valid() && Free() == old(Free()) + FramesOf(Link(lo, hi - lo))
      ensures Ready()
      ensures SameOutside(old(ram.frames), ram.frames, if lo < LIMIT_4G <= hi then {lo, LIMIT_4G} else {lo})
      ensures lo < LIMIT_4G && hi == LIMIT_4G ==> above.head == LIMIT_4G * PAGE_SIZE && NothingAt4G()
      ensures stray == (lo < LIMIT_4G && hi == LIMIT_4G && !at4G)
      ensures old(PagesAreNew(lo, hi)) && 0 < lo < hi == LIMIT_4G ==>
        BelowHolds(old(below.Frames()) + FramesOf(Link(lo, hi - lo)))
    {
      hide ListOk, AllFrames, MemoryOk, WholePages;
      stray := false;
      if lo >= LIMIT_4G {
        PushAbove(hi - lo, lo);
      } else if hi >= LIMIT_4G {
        stray := PushAcross(lo, hi, at4G);
      } else {
        PushBelow(hi - lo, lo);
      }
    }

    /**
      `add_physical_chunk`: for a chunk that is not free yet, what it adds is right exactly if `Sound` lets
      the chunk through. `at4G` says whether there is memory at 4 GiB, and `stray` whether a link was written
      where there is none: exactly for a chunk that ends at 4 GiB, the end of memory.
     */
    method AddChunk(start: nat, end: nat, at4G: bool) returns (stray: bool)
      requires Ready() && start + 4095 < 0x100_0000_0000_0000 && end < 0x100_0000_0000_0000 && ChunkExists(start, end)
      requires at4G == (LIMIT_4G in ram.frames)
      modifies ram, above, below
      ensures stray == (UpToPage(start) < DownToPage(end) == LIMIT_4G && !at4G)
      ensures Ready() && ram.frames.Keys == old(ram.frames.Keys)
      ensures old(Valid() && ChunkIsNew(start, end)) ==>
        (Sound(start, end) <==> exists a, b :: Holds(a, b, old(Free()) + WholePages(start, end)))
      ensures old(Valid() && ChunkIsNew(start, end)) && Sound(start, end) ==>
        && Valid() && Free() == old(Free()) + WholePages(start, end)
        && SameOutside(old(ram.frames), ram.frames, WholePages(start, end))
      ensures old(Valid() && ChunkIsNew(start, end)) && 0 < UpToPage(start) < DownToPage(end) == LIMIT_4G ==>
        BelowHolds(old(below.Frames()) + WholePages(start, end))
    {
      hide ListOk, AllFrames, WholePages, FramesOf;
      var lo := UpToPage(start);
      var hi := DownToPage(end);
      WholePagesAre(start, end, lo, hi);
      ghost var known, free, pages := Valid() && ChunkIsNew(start, end), Free(), WholePages(start, end);
      if lo >= hi {
        assert known ==> Holds(above.links, below.links, free + pages);
        return false;
      }
      ChunkPages(start, end, lo, hi);
      ghost var m := ram.frames;
      stray := PushChunk(lo, hi, at4G);
      if known {
        OnlyInside(m, ram.frames, start, end, lo, hi);
        if Sound(start, end) {
          assert Holds(above.links, below.links, free + pages);
        } else {
          Unsound(free + pages, lo == 0);
        }
      }
    }
  }

  lemma OnlyInside(m: Memory, m': Memory, start: nat, end: nat, lo: nat, hi: nat)
    requires lo == UpToPage(start) && hi == DownToPage(end) && end < 0x100_0000_0000_0000 && lo < hi
    requires SameOutside(m, m', if lo < LIMIT_4G <= hi then {lo, LIMIT_4G} else {lo})
    ensures hi != LIMIT_4G || lo >= LIMIT_4G ==> SameOutside(m, m', WholePages(start, end))
    ensures lo in WholePages(start, end)
  {
    WholePagesAre(start, end, lo, hi);
    assert Link(lo, hi - lo).Has(lo);
    assert lo <= LIMIT_4G < hi ==> Link(lo, hi - lo).Has(LIMIT_4G);
  }
}
