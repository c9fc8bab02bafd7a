/**
  The virtual memory allocator of `mm/virtual_alloc.c`: one set of VMAs held in an address-ordered
  circular list, a treap by address, and a treap of the free ones by size.
 */
module VirtualAlloc {
  import opened Integers
  import opened Lists
  import opened TreapShape
  import opened Treaps
  import opened Tiles
  import opened Align

  /** `struct vma`. The three parts are the places that link it into the three structures. */
  class Vma {
    const allocator: VmaAllocator
    const list: ListHead<Vma?>
    const byAddr: TreapNode<Vma?>
    const bySize: TreapNode<Vma?>

    /** `vma_init`, with the bounds in pages from `lo_address`. */
    constructor (allocator: VmaAllocator, start: u32, pages: nat)
      requires 1 <= pages <= 0x1_0000_0000
      ensures this.allocator == allocator && fresh(Parts()) && Wired() && Unlinked(start, pages)
      ensures byAddr != bySize
    {
      this.allocator := allocator;
      list := new ListHead<Vma?>(null);
      byAddr := new TreapNode<Vma?>(null, start);
      bySize := new TreapNode<Vma?>(null, pages - 1);
      new;
      list.owner, byAddr.owner, bySize.owner := this, this, this;
    }

    /** `vma_bounds`. */
    method ReadBounds() returns (lo: nat, hi: nat)
      ensures lo == allocator.loAddress + byAddr.head.value * 4096
      ensures hi == lo + (bySize.head.value + 1) * 4096
    {
      lo := allocator.loAddress + byAddr.head.value * 4096;
      hi := lo + (bySize.head.value + 1) * 4096;
    }

    /** `is_vma_free`. */
    method IsFree() returns (free: bool)
      ensures free <==> bySize.head.priority != 0
    {
      free := bySize.head.priority != 0;
    }

    ghost function Parts(): set<object> {
      {list, byAddr, bySize}
    }

    /** The parts know which VMA they belong to. */
    ghost predicate Wired()
      reads list`owner, byAddr`owner, bySize`owner
    {
      list.owner == this && byAddr.owner == this && bySize.owner == this
    }

    /** The VMA is in none of the three structures. */
    ghost predicate Unlinked(start: u32, pages: nat)
      requires 1 <= pages <= 0x1_0000_0000
      reads Parts()
    {
      list.prev == list.next == list && byAddr.head == Detached(start) && bySize.head == Detached(pages - 1)
    }
  }

  /** How an allocation ends. `Halted` is a panic of the kernel. */
  datatype Outcome = Allocated(vma: Vma) | NoSpace | NoMetadata | Halted

  /** What the three structures hold at one moment, and how that reads as tiles. */
  datatype Book = Book(tiles: seq<Vma>, view: seq<Tile>, ring: seq<ListHead<Vma?>>,
                       addr: Shape<Vma?>, size: Shape<Vma?>, idle: map<TreapNode<Vma?>, u32>,
                       home: map<TreapNode<Vma?>, Vma>) {

    ghost predicate TilesOk() {
      && |tiles| == |view|
      && (forall i :: 0 <= i < |view| ==> 1 <= view[i].pages <= 0x1_0000_0000)
      && (forall i, j :: 0 <= i < j < |view| ==> view[i].start < view[j].start)
    }

    /** The list is the sentinel followed by the VMAs in order. */
    ghost predicate ListOk(sentinel: ListHead<Vma?>) {
      && |ring| == |tiles| + 1 && ring[0] == sentinel
      && (forall i :: 0 <= i < |tiles| ==> ring[i + 1] == tiles[i].list)
    }

    ghost predicate AddrAt(i: nat) {
      && i < |tiles| && i < |view| && i < |addr.order|
      && addr.order[i] == tiles[i].byAddr
      && tiles[i].byAddr in addr.at && addr.at[tiles[i].byAddr].value == view[i].start
    }

    /** The treap by address has the same VMAs in the same order. */
    ghost predicate AddrOk() {
      && |addr.order| == |tiles| == |view|
      && (forall i {:trigger AddrAt(i)} :: 0 <= i < |tiles| ==> AddrAt(i))
    }

    ghost predicate SizeAt(v: Vma, t: Tile) {
      if t.used then v.bySize in idle && idle[v.bySize] == t.pages - 1
      else v.bySize in size.at && size.at[v.bySize].value == t.pages - 1
    }

    ghost predicate IsFreeNode(n: TreapNode<Vma?>) {
      exists i {:trigger SizeAt(tiles[i], view[i])} :: 0 <= i < |tiles| && i < |view| &&
        tiles[i].bySize == n && !view[i].used && SizeAt(tiles[i], view[i])
    }

    /** The treap by size has exactly the free VMAs; the used ones are idle but still know their size. */
    ghost predicate SizeOk() {
      && |tiles| == |view|
      && (forall i {:trigger SizeAt(tiles[i], view[i])} :: 0 <= i < |tiles| ==> SizeAt(tiles[i], view[i]))
      && (forall n {:trigger IsFreeNode(n)} :: n in size.at ==> IsFreeNode(n))
    }

    /** Different VMAs and different structures have different nodes. */
    ghost predicate Apart() {
      && addr.at.Keys !! size.at.Keys !! idle.Keys
      && (forall v :: v in tiles ==> v.bySize in home && home[v.bySize] == v)
    }

    /** Different VMAs have different places in the treap by size. */
    lemma OtherPlace(k: nat)
      requires TilesOk() && AddrOk() && Apart() && k < |tiles|
      ensures forall i :: 0 <= i < |tiles| && i != k ==> tiles[i].bySize != tiles[k].bySize
    {
      forall i | 0 <= i < |tiles| && i != k
        ensures tiles[i].bySize != tiles[k].bySize
      {
        assert AddrAt(i) && AddrAt(k);
        assert view[i].start != view[k].start;
        assert tiles[i] in tiles && tiles[k] in tiles;
      }
    }

    ghost predicate Ok(sentinel: ListHead<Vma?>) {
      TilesOk() && ListOk(sentinel) && AddrOk() && SizeOk() && Apart()
    }

    ghost predicate HasTile(v: Vma, t: Tile) {
      exists j :: 0 <= j < |tiles| && j < |view| && tiles[j] == v && view[j] == t
    }

    /** Every used VMA, other than `v`, is still there in `that`, with the bounds it had. */
    ghost predicate Keeps(that: Book, v: Vma?) {
      forall i {:trigger tiles[i]} :: 0 <= i < |tiles| && i < |view| && view[i].used && tiles[i] != v ==>
        that.HasTile(tiles[i], view[i])
    }

    /** The VMAs `i` up to `j` have given way to others; if one of them was used, it was `v`. */
    lemma SplicedKeeps(that: Book, i: nat, j: nat, mid: seq<Vma>, midView: seq<Tile>, v: Vma?)
      requires i <= j <= |tiles| == |view| && |mid| == |midView|
      requires forall m :: i <= m < j && view[m].used ==> tiles[m] == v
      requires that.tiles == tiles[..i] + mid + tiles[j..] && that.view == view[..i] + midView + view[j..]
      ensures Keeps(that, v)
    {
      forall m | 0 <= m < |tiles| && view[m].used && tiles[m] != v
        ensures that.HasTile(tiles[m], view[m])
      {
        var n := if m < i then m else m - j + i + |mid|;
        assert that.tiles[n] == tiles[m] && that.view[n] == view[m];
      }
    }

    /** The tile `k` alone has changed, and everything else about it agrees. */
    lemma ChangedOk(sentinel: ListHead<Vma?>, k: nat, t: Tile, b: Book)
      requires Ok(sentinel) && k < |tiles| && t.start == view[k].start && 1 <= t.pages <= 0x1_0000_0000
      requires b == this.(view := view[k := t], size := b.size, idle := b.idle)
      requires b.SizeAt(tiles[k], t)
      requires b.size.at.Keys <= size.at.Keys + {tiles[k].bySize} && (t.used ==> tiles[k].bySize !in b.size.at)
      requires b.size.at.Keys !! b.idle.Keys && b.idle.Keys !! addr.at.Keys && b.size.at.Keys !! addr.at.Keys
      requires forall m :: m in size.at && m != tiles[k].bySize ==>
        m in b.size.at && b.size.at[m].value == size.at[m].value
      requires forall m :: m in idle && m != tiles[k].bySize ==> m in b.idle && b.idle[m] == idle[m]
      ensures b.Ok(sentinel)
    {
      OtherPlace(k);
      ChangedSizeOk(k, t, b);
      forall i | 0 <= i < |tiles|
        ensures b.AddrAt(i)
      {
        assert AddrAt(i);
      }
    }

    lemma ChangedSizeOk(k: nat, t: Tile, b: Book)
      requires SizeOk() && k < |tiles|
      requires b == this.(view := view[k := t], size := b.size, idle := b.idle)
      requires b.SizeAt(tiles[k], t)
      requires b.size.at.Keys <= size.at.Keys + {tiles[k].bySize} && (t.used ==> tiles[k].bySize !in b.size.at)
      requires forall i :: 0 <= i < |tiles| && i != k ==> tiles[i].bySize != tiles[k].bySize
      requires forall m :: m in size.at && m != tiles[k].bySize ==>
        m in b.size.at && b.size.at[m].value == size.at[m].value
      requires forall m :: m in idle && m != tiles[k].bySize ==> m in b.idle && b.idle[m] == idle[m]
      ensures b.SizeOk()
    {
      forall i | 0 <= i < |tiles|
        ensures b.SizeAt(tiles[i], b.view[i])
      {
        assert SizeAt(tiles[i], view[i]);
      }
      forall n | n in b.size.at
        ensures b.IsFreeNode(n)
      {
        if n == tiles[k].bySize {
          assert b.SizeAt(b.tiles[k], b.view[k]);
        } else {
          assert IsFreeNode(n);
          var i :| 0 <= i < |tiles| && tiles[i].bySize == n && !view[i].used && SizeAt(tiles[i], view[i]);
          assert b.SizeAt(b.tiles[i], b.view[i]);
        }
      }
    }

    /** Where the list and the treap by address put a new VMA is the same place. */
    lemma PlaceIs(sentinel: ListHead<Vma?>, k: nat, start: u32, p: nat)
      requires Ok(sentinel) && addr.Ok() && k <= |tiles| && FitsAt(view, k, start)
      requires SortedPlace(addr, start, p)
      ensures p == k
    {
      assert k < |tiles| ==> AddrAt(k);
      assert p < |tiles| ==> AddrAt(p);
    }

    ghost predicate Unknown(v: Vma) {
      && v !in tiles && v.list !in ring && v.byAddr != v.bySize
      && v.byAddr !in addr.at && v.byAddr !in size.at && v.byAddr !in idle
      && v.bySize !in addr.at && v.bySize !in size.at && v.bySize !in idle
      && (v.bySize in home ==> home[v.bySize] == v)
    }

    /** A VMA that nothing knows, but whose parts have been here before. */
    ghost predicate Spare(v: Vma) {
      Unknown(v) && v.bySize in home && home[v.bySize] == v
    }

    ghost function Added(k: nat, v: Vma, start: nat, pages: nat, addr': Shape<Vma?>): Book
      requires k <= |tiles| && k <= |view| && k < |ring| && 1 <= pages <= 0x1_0000_0000
    {
      Book(tiles[..k] + [v] + tiles[k..], view[..k] + [Tile(start, pages, true)] + view[k..],
           ring[..k + 1] + [v.list] + ring[k + 1..], addr', size, idle[v.bySize := pages - 1], home[v.bySize := v])
    }

    ghost predicate Addable(k: nat, v: Vma, start: nat, pages: nat, addr': Shape<Vma?>) {
      && k <= |tiles| == |view| && k < |ring| && k <= |addr.order|
      && Unknown(v) && FitsAt(view, k, start) && 1 <= pages <= 0x1_0000_0000
      && addr'.order == addr.order[..k] + [v.byAddr] + addr.order[k..]
      && addr'.at.Keys == addr.at.Keys + {v.byAddr} && addr'.at[v.byAddr].value == start
      && (forall m :: m in addr.at && m != v.byAddr ==> addr'.at[m].value == addr.at[m].value)
    }

    lemma BecomesAddable(sentinel: ListHead<Vma?>, k: nat, v: Vma, start: u32, pages: nat, addr': Shape<Vma?>,
                         priority: u31, p: nat)
      requires Ok(sentinel) && addr.Ok() && k <= |tiles| && Unknown(v) && FitsAt(view, k, start)
      requires 1 <= pages <= 0x1_0000_0000 && Inserted(addr, addr', v.byAddr, start, priority, p)
      ensures Addable(k, v, start, pages, addr')
    {
      PlaceIs(sentinel, k, start, p);
    }

    lemma AddedTiles(k: nat, v: Vma, start: nat, pages: nat, addr': Shape<Vma?>)
      requires Addable(k, v, start, pages, addr')
      ensures var b := Added(k, v, start, pages, addr');
        && |b.tiles| == |b.view| == |tiles| + 1
        && (forall i :: 0 <= i < |b.tiles| ==>
              && b.tiles[i] == (if i < k then tiles[i] else if i == k then v else tiles[i - 1])
              && b.view[i] == (if i < k then view[i] else if i == k then Tile(start, pages, true) else view[i - 1]))
    {
    }

    lemma AddedAddrOk(k: nat, v: Vma, start: nat, pages: nat, addr': Shape<Vma?>)
      requires Addable(k, v, start, pages, addr') && AddrOk()
      ensures Added(k, v, start, pages, addr').AddrOk()
    {
      var b := Added(k, v, start, pages, addr');
      AddedTiles(k, v, start, pages, addr');
      forall i | 0 <= i < |b.tiles|
        ensures b.AddrAt(i)
      {
        assert addr'.order[i] == if i < k then addr.order[i] else if i == k then v.byAddr else addr.order[i - 1];
        if i != k {
          assert AddrAt(if i < k then i else i - 1);
        }
      }
    }

    lemma AddedSizeOk(k: nat, v: Vma, start: nat, pages: nat, addr': Shape<Vma?>)
      requires Addable(k, v, start, pages, addr') && SizeOk()
      ensures Added(k, v, start, pages, addr').SizeOk()
    {
      var b := Added(k, v, start, pages, addr');
      AddedTiles(k, v, start, pages, addr');
      forall i | 0 <= i < |b.tiles|
        ensures b.SizeAt(b.tiles[i], b.view[i])
      {
        if i != k {
          var j := if i < k then i else i - 1;
          assert SizeAt(tiles[j], view[j]);
        }
      }
      forall n | n in size.at
        ensures b.IsFreeNode(n)
      {
        AddedFree(k, v, start, pages, addr', n);
      }
    }

    lemma AddedFree(k: nat, v: Vma, start: nat, pages: nat, addr': Shape<Vma?>, n: TreapNode<Vma?>)
      requires Addable(k, v, start, pages, addr') && SizeOk() && n in size.at
      ensures Added(k, v, start, pages, addr').IsFreeNode(n)
    {
      var b := Added(k, v, start, pages, addr');
      AddedTiles(k, v, start, pages, addr');
      assert IsFreeNode(n);
      var i :| 0 <= i < |tiles| && tiles[i].bySize == n && !view[i].used && SizeAt(tiles[i], view[i]);
      var j := if i < k then i else i + 1;
      assert b.SizeAt(b.tiles[j], b.view[j]);
    }

    lemma AddedApart(k: nat, v: Vma, start: nat, pages: nat, addr': Shape<Vma?>)
      requires Addable(k, v, start, pages, addr') && SizeOk() && Apart()
      ensures Added(k, v, start, pages, addr').Apart()
    {
      var b := Added(k, v, start, pages, addr');
      forall w | w in b.tiles
        ensures w.bySize in b.home && b.home[w.bySize] == w
      {
        assert w == v || w in tiles;
      }
    }

    /** `v` has joined the list and the treap by address as a used VMA. */
    lemma AddedOk(sentinel: ListHead<Vma?>, k: nat, v: Vma, start: nat, pages: nat, addr': Shape<Vma?>)
      requires Ok(sentinel) && Addable(k, v, start, pages, addr')
      ensures Added(k, v, start, pages, addr').Ok(sentinel)
    {
      assert TilesOk() && ListOk(sentinel) && AddrOk() && SizeOk() && Apart();
      hide *;
      AddedTilesOk(k, v, start, pages, addr');
      AddedListOk(sentinel, k, v, start, pages, addr');
      AddedAddrOk(k, v, start, pages, addr');
      AddedSizeOk(k, v, start, pages, addr');
      AddedApart(k, v, start, pages, addr');
    }

    lemma AddedTilesOk(k: nat, v: Vma, start: nat, pages: nat, addr': Shape<Vma?>)
      requires Addable(k, v, start, pages, addr') && TilesOk()
      ensures Added(k, v, start, pages, addr').TilesOk()
    {
      AddedTiles(k, v, start, pages, addr');
    }

    lemma AddedListOk(sentinel: ListHead<Vma?>, k: nat, v: Vma, start: nat, pages: nat, addr': Shape<Vma?>)
      requires Addable(k, v, start, pages, addr') && ListOk(sentinel)
      ensures Added(k, v, start, pages, addr').ListOk(sentinel)
    {
      AddedTiles(k, v, start, pages, addr');
      var b := Added(k, v, start, pages, addr');
      assert forall i :: 0 <= i < |b.ring| ==>
        b.ring[i] == if i <= k then ring[i] else if i == k + 1 then v.list else ring[i - 1];
    }

    ghost function Dropped(k: nat, addr': Shape<Vma?>, size': Shape<Vma?>): Book
      requires k < |tiles| == |view| && k + 1 < |ring|
    {
      Book(tiles[..k] + tiles[k + 1..], view[..k] + view[k + 1..], ring[..k + 1] + ring[k + 2..],
           addr', size', idle, home)
    }

    ghost predicate Droppable(k: nat, addr': Shape<Vma?>, size': Shape<Vma?>) {
      && k < |tiles| == |view| && k + 1 < |ring| && |addr.order| == |tiles| && !view[k].used
      && addr'.order == addr.order[..k] + addr.order[k + 1..]
      && addr'.at.Keys == addr.at.Keys - {tiles[k].byAddr}
      && size'.at.Keys == size.at.Keys - {tiles[k].bySize}
      && (forall m :: m in addr'.at && m in addr.at ==> addr'.at[m].value == addr.at[m].value)
      && (forall m :: m in size'.at && m in size.at ==> size'.at[m].value == size.at[m].value)
    }

    lemma DroppedTiles(k: nat, addr': Shape<Vma?>, size': Shape<Vma?>)
      requires Droppable(k, addr', size')
      ensures var b := Dropped(k, addr', size');
        && |b.tiles| == |b.view| == |tiles| - 1
        && (forall i :: 0 <= i < |b.tiles| ==>
              && b.tiles[i] == (if i < k then tiles[i] else tiles[i + 1])
              && b.view[i] == (if i < k then view[i] else view[i + 1]))
    {
    }

    lemma DroppedAddrOk(k: nat, addr': Shape<Vma?>, size': Shape<Vma?>)
      requires Droppable(k, addr', size') && AddrOk() && TilesOk()
      ensures Dropped(k, addr', size').AddrOk()
    {
      var b := Dropped(k, addr', size');
      DroppedTiles(k, addr', size');
      assert AddrAt(k);
      forall i | 0 <= i < |b.tiles|
        ensures b.AddrAt(i)
      {
        var j := if i < k then i else i + 1;
        assert AddrAt(j);
        assert addr'.order[i] == addr.order[j];
        assert view[j].start != view[k].start;
      }
    }

    lemma DroppedSizeOk(k: nat, addr': Shape<Vma?>, size': Shape<Vma?>)
      requires Droppable(k, addr', size') && SizeOk()
      requires forall i :: 0 <= i < |tiles| && i != k ==> tiles[i].bySize != tiles[k].bySize
      ensures Dropped(k, addr', size').SizeOk()
    {
      var b := Dropped(k, addr', size');
      DroppedTiles(k, addr', size');
      forall i | 0 <= i < |b.tiles|
        ensures b.SizeAt(b.tiles[i], b.view[i])
      {
        var j := if i < k then i else i + 1;
        assert SizeAt(tiles[j], view[j]);
      }
      forall n | n in size'.at
        ensures b.IsFreeNode(n)
      {
        DroppedFree(k, addr', size', n);
      }
    }

    lemma DroppedFree(k: nat, addr': Shape<Vma?>, size': Shape<Vma?>, n: TreapNode<Vma?>)
      requires Droppable(k, addr', size') && SizeOk() && n in size'.at
      requires forall i :: 0 <= i < |tiles| && i != k ==> tiles[i].bySize != tiles[k].bySize
      ensures Dropped(k, addr', size').IsFreeNode(n)
    {
      var b := Dropped(k, addr', size');
      DroppedTiles(k, addr', size');
      assert IsFreeNode(n);
      var i :| 0 <= i < |tiles| && tiles[i].bySize == n && !view[i].used && SizeAt(tiles[i], view[i]);
      var j := if i < k then i else i - 1;
      assert b.SizeAt(b.tiles[j], b.view[j]);
    }

    /** `v` has left the three structures, and nothing in them knows it any more. */
    lemma DroppedOk(sentinel: ListHead<Vma?>, k: nat, addr': Shape<Vma?>, size': Shape<Vma?>)
      requires Ok(sentinel) && Droppable(k, addr', size')
      ensures Dropped(k, addr', size').Ok(sentinel)
    {
      assert TilesOk() && ListOk(sentinel) && AddrOk() && SizeOk() && Apart();
      hide *;
      OtherPlace(k);
      DroppedTilesOk(k, addr', size');
      DroppedListOk(sentinel, k, addr', size');
      DroppedAddrOk(k, addr', size');
      DroppedSizeOk(k, addr', size');
      DroppedApart(k, addr', size');
    }

    lemma DroppedTilesOk(k: nat, addr': Shape<Vma?>, size': Shape<Vma?>)
      requires Droppable(k, addr', size') && TilesOk()
      ensures Dropped(k, addr', size').TilesOk()
    {
      DroppedTiles(k, addr', size');
    }

    lemma DroppedListOk(sentinel: ListHead<Vma?>, k: nat, addr': Shape<Vma?>, size': Shape<Vma?>)
      requires Droppable(k, addr', size') && ListOk(sentinel)
      ensures Dropped(k, addr', size').ListOk(sentinel)
    {
      DroppedTiles(k, addr', size');
      var b := Dropped(k, addr', size');
      assert forall i :: 0 <= i < |b.ring| ==> b.ring[i] == if i <= k then ring[i] else ring[i + 1];
    }

    lemma DroppedApart(k: nat, addr': Shape<Vma?>, size': Shape<Vma?>)
      requires Droppable(k, addr', size') && Apart()
      ensures Dropped(k, addr', size').Apart()
    {
      var b := Dropped(k, addr', size');
      forall w | w in b.tiles
        ensures w in tiles
      {
      }
    }

    lemma DroppedUnknown(sentinel: ListHead<Vma?>, k: nat, addr': Shape<Vma?>, size': Shape<Vma?>)
      requires Ok(sentinel) && Droppable(k, addr', size')
      requires forall i, j :: 0 <= i < j < |ring| ==> ring[i] != ring[j]
      ensures Dropped(k, addr', size').Spare(tiles[k])
    {
      var v := tiles[k];
      assert AddrAt(k) && SizeAt(v, view[k]);
      assert v.list == ring[k + 1];
      var b := Dropped(k, addr', size');
      assert forall i :: 0 <= i < |b.ring| ==> b.ring[i] == if i <= k then ring[i] else ring[i + 1];
      DroppedTiles(k, addr', size');
      forall i | 0 <= i < |tiles| && i != k
        ensures tiles[i] != v
      {
        assert AddrAt(i) && view[i].start != view[k].start;
      }
    }
  }

  /** A tile starting at `start` belongs right before tile `k`. */
  ghost predicate FitsAt(ts: seq<Tile>, k: nat, start: nat) {
    && k <= |ts|
    && (forall i :: 0 <= i < k ==> ts[i].start < start)
    && (forall i :: k <= i < |ts| ==> start < ts[i].start)
  }

  lemma NothingOk(sentinel: ListHead<Vma?>)
    ensures var empty: Shape<Vma?> := Shape(null, [], map[], map[]);
      Book([], [], [sentinel], empty, empty, map[], map[]).Ok(sentinel)
    ensures AllIdle(map[]) && AllWired(map[])
  {
  }

  ghost predicate AllIdle(idle: map<TreapNode<Vma?>, u32>)
    reads idle.Keys`head
  {
    forall n :: n in idle ==> n.head == Detached(idle[n])
  }

  /** Every VMA that was ever here knows its parts, and they know it. */
  ghost predicate AllWired(home: map<TreapNode<Vma?>, Vma>)
    reads (set v | v in home.Values :: v.list)`owner
    reads (set v | v in home.Values :: v.byAddr)`owner, (set v | v in home.Values :: v.bySize)`owner
  {
    forall n :: n in home ==> home[n] in home.Values && home[n].Wired()
  }

  lemma LessIdle(m: map<TreapNode<Vma?>, u32>, n: TreapNode<Vma?>)
    requires AllIdle(m)
    ensures AllIdle(m - {n})
  {
  }

  lemma MoreIdle(m: map<TreapNode<Vma?>, u32>, n: TreapNode<Vma?>, value: u32)
    requires AllIdle(m) && n.head == Detached(value)
    ensures AllIdle(m[n := value])
  {
  }

  lemma DetachedWith(a: u32, b: u32)
    ensures Detached<Vma?>(a).(value := b) == Detached<Vma?>(b)
  {
  }

  lemma MoreWired(home: map<TreapNode<Vma?>, Vma>, v: Vma)
    requires AllWired(home) && v.Wired()
    ensures AllWired(home[v.bySize := v])
  {
  }

  lemma InsertedFacts(s: Shape<Vma?>, s': Shape<Vma?>, n: TreapNode<Vma?>, value: u32, priority: u31, p: nat)
    requires s.Ok() && Inserted(s, s', n, value, priority, p)
    ensures s'.at.Keys == s.at.Keys + {n} && s'.at[n].value == value
    ensures forall m :: m in s.at && m != n ==> s'.at[m].value == s.at[m].value
  {
  }

  lemma RemovedFacts(s: Shape<Vma?>, s': Shape<Vma?>, n: TreapNode<Vma?>)
    requires n in s.span && Removed(s, s', n)
    ensures s'.at.Keys == s.at.Keys - {n}
    ensures forall m :: m in s'.at && m in s.at ==> s'.at[m].value == s.at[m].value
  {
  }

  /** The draw that ends the loop in `treap_insert`, masked to something other than zero. */
  method DrawPriority() returns (random: u32)
    ensures random % 0x8000_0000 != 0
  {
    random :| random % 0x8000_0000 != 0;
  }

  /** `treap_insert` into one of the two treaps, next to everything that it leaves alone. */
  method PutIn(t: Treap<Vma?>, other: Treap<Vma?>, n: TreapNode<Vma?>, ghost ring: seq<ListHead<Vma?>>,
               ghost idle: map<TreapNode<Vma?>, u32>, ghost home: map<TreapNode<Vma?>, Vma>)
    returns (ghost p: nat, ghost priority: u31)
    requires t.Valid() && n.head == Detached(n.head.value) && t != other
    requires n !in t.shape.at && n !in other.shape.at && n !in idle
    requires t.shape.at.Keys !! other.shape.at.Keys !! idle.Keys
    requires Ring(ring) && other.Valid() && AllIdle(idle) && AllWired(home)
    modifies t, t.shape.at.Keys`head, n`head
    ensures t.Valid() && Inserted(old(t.shape), t.shape, n, old(n.head.value), priority, p)
    ensures Ring(ring) && other.Valid() && other.shape == old(other.shape) && AllIdle(idle) && AllWired(home)
  {
    hide *;
    var random := DrawPriority();
    priority := random % 0x8000_0000;
    p := t.Insert(n, random);
  }

  /** `treap_remove` from one of the two treaps, next to everything that it leaves alone. */
  method TakeOut(t: Treap<Vma?>, other: Treap<Vma?>, n: TreapNode<Vma?>, ghost ring: seq<ListHead<Vma?>>,
                 ghost idle: map<TreapNode<Vma?>, u32>, ghost home: map<TreapNode<Vma?>, Vma>)
    requires t.Valid() && t != other && n in t.shape.at
    requires t.shape.at.Keys !! other.shape.at.Keys !! idle.Keys
    requires Ring(ring) && other.Valid() && AllIdle(idle) && AllWired(home)
    modifies t, t.shape.at.Keys`head
    ensures t.Valid() && n in old(t.shape).span && Removed(old(t.shape), t.shape, n)
    ensures n.head == Detached(old(n.head.value))
    ensures Ring(ring) && other.Valid() && other.shape == old(other.shape) && AllIdle(idle) && AllWired(home)
  {
    hide *;
    t.Remove(n);
  }

  class VmaAllocator {
    const vmas: ListHead<Vma?>
    const loAddress: nat
    const hiAddress: nat
    const byAddr: Treap<Vma?>
    const bySize: Treap<Vma?>

    ghost var book: Book
    ghost var Repr: set<object>

    /** The empty allocator that `vma_allocator_init` starts from at line 365. */
    constructor (lo: nat, hi: nat)
      ensures Consistent() && fresh(Repr) && book.tiles == [] && book.view == []
      ensures loAddress == lo && hiAddress == hi
    {
      hide *;
      loAddress, hiAddress := lo, hi;
      vmas := new ListHead<Vma?>(null);
      byAddr := new Treap<Vma?>();
      bySize := new Treap<Vma?>();
      new;
      book := Book([], [], [vmas], byAddr.shape, bySize.shape, map[], map[]);
      Repr := {this, vmas, byAddr, bySize};
      RingOfOne(vmas);
      NothingOk(vmas);
      Close();
    }

    ghost predicate Owned(repr: set<object>, b: Book) {
      && this in repr && vmas in repr && byAddr in repr && bySize in repr && byAddr != bySize
      && b.addr.at.Keys <= repr && b.size.at.Keys <= repr && b.idle.Keys <= repr && b.home.Keys <= repr
      && (forall l :: l in b.ring ==> l in repr)
      && (forall n :: n in b.home ==>
            && b.home[n].allocator == this && b.home[n].bySize == n
            && b.home[n].list in repr && b.home[n].byAddr in repr && n in repr)
    }

    /** The three structures hold what the book says. */
    ghost predicate Consistent()
      reads this, byAddr, bySize, Repr
    {
      && Owned(Repr, book) && book.Ok(vmas)
      && byAddr.shape == book.addr && bySize.shape == book.size
      && Ring(book.ring) && byAddr.Valid() && bySize.Valid() && AllIdle(book.idle) && AllWired(book.home)
    }

    lemma Open()
      requires Consistent()
      ensures Owned(Repr, book) && book.Ok(vmas)
      ensures byAddr.shape == book.addr && bySize.shape == book.size
      ensures Ring(book.ring) && byAddr.Valid() && bySize.Valid() && AllIdle(book.idle) && AllWired(book.home)
      ensures byAddr in Repr && bySize in Repr && byAddr != bySize && |book.tiles| == |book.view|
      ensures book.addr.at.Keys <= Repr && book.size.at.Keys <= Repr && book.idle.Keys <= Repr
      ensures book.addr.at.Keys !! book.size.at.Keys !! book.idle.Keys
    {
    }

    lemma Close()
      requires Owned(Repr, book) && book.Ok(vmas)
      requires byAddr.shape == book.addr && bySize.shape == book.size
      requires Ring(book.ring) && byAddr.Valid() && bySize.Valid() && AllIdle(book.idle) && AllWired(book.home)
      ensures Consistent()
    {
    }

    /** The book moves on to what the structures hold by now. */
    ghost method Settle(b: Book, repr: set<object>)
      requires Owned(repr, b) && b.Ok(vmas)
      requires byAddr.shape == b.addr && bySize.shape == b.size
      requires Ring(b.ring) && byAddr.Valid() && bySize.Valid() && AllIdle(b.idle) && AllWired(b.home)
      modifies this
      ensures Consistent() && book == b && Repr == repr
    {
      hide *;
      book, Repr := b, repr;
      Close();
    }

    lemma UsedIsIdle(k: nat)
      requires Consistent() && k < |book.tiles| && book.view[k].used
      ensures var n := book.tiles[k].bySize;
        && n in book.idle && book.idle[n] == book.view[k].pages - 1
        && n.head == Detached(n.head.value) && n.head.value == book.view[k].pages - 1
    {
      assert book.SizeAt(book.tiles[k], book.view[k]);
    }

    lemma FreeIsIn(k: nat)
      requires Consistent() && k < |book.tiles| && !book.view[k].used
      ensures var n := book.tiles[k].bySize;
        n in book.size.at && n in book.size.span && n.head.value == book.view[k].pages - 1
    {
      assert book.SizeAt(book.tiles[k], book.view[k]);
    }

    /** A change to the tile `k` alone keeps everything inside `Repr`. */
    lemma ChangedOwned(k: nat, t: Tile, b: Book)
      requires Owned(Repr, book) && book.Ok(vmas) && k < |book.tiles|
      requires b == book.(view := book.view[k := t], size := b.size, idle := b.idle)
      requires b.size.at.Keys <= book.size.at.Keys + {book.tiles[k].bySize}
      requires b.idle.Keys <= book.idle.Keys + {book.tiles[k].bySize}
      ensures Owned(Repr, b)
    {
      assert book.tiles[k] in book.tiles;
    }

    /** `treap_insert(vma, BY_SIZE)`: the used VMA `k` becomes free. */
    method MarkFree(v: Vma, ghost k: nat)
      requires Consistent() && k < |book.tiles| && book.tiles[k] == v && book.view[k].used
      modifies Repr
      ensures Consistent() && Repr == old(Repr)
      ensures book == old(book).(view := old(book.view)[k := old(book.view)[k].(used := false)],
                                 size := book.size, idle := book.idle)
      ensures book.size.at.Keys <= old(book).size.at.Keys + {v.bySize}
      ensures book.idle.Keys <= old(book).idle.Keys + {v.bySize}
    {
      hide *;
      Open();
      UsedIsIdle(k);
      LessIdle(book.idle, v.bySize);
      ghost var value, t := v.bySize.head.value, book.view[k].(used := false);
      ghost var p, priority := PutIn(bySize, byAddr, v.bySize, book.ring, book.idle - {v.bySize}, book.home);
      InsertedFacts(book.size, bySize.shape, v.bySize, value, priority, p);
      ghost var b := book.(view := book.view[k := t], size := bySize.shape, idle := book.idle - {v.bySize});
      book.ChangedOk(vmas, k, t, b);
      ChangedOwned(k, t, b);
      Settle(b, Repr);
    }

    /** `treap_remove(vma, BY_SIZE)`: the free VMA `k` becomes used. */
    method MarkUsed(v: Vma, ghost k: nat)
      requires Consistent() && k < |book.tiles| && book.tiles[k] == v && !book.view[k].used
      modifies Repr
      ensures Consistent() && Repr == old(Repr)
      ensures book == old(book).(view := old(book.view)[k := old(book.view)[k].(used := true)],
                                 size := book.size, idle := book.idle)
      ensures book.size.at.Keys <= old(book).size.at.Keys + {v.bySize}
      ensures book.idle.Keys <= old(book).idle.Keys + {v.bySize}
    {
      hide *;
      Open();
      FreeIsIn(k);
      ghost var value, t := v.bySize.head.value, book.view[k].(used := true);
      TakeOut(bySize, byAddr, v.bySize, book.ring, book.idle, book.home);
      RemovedFacts(book.size, bySize.shape, v.bySize);
      MoreIdle(book.idle, v.bySize, value);
      ghost var b := book.(view := book.view[k := t], size := bySize.shape, idle := book.idle[v.bySize := value]);
      book.ChangedOk(vmas, k, t, b);
      ChangedOwned(k, t, b);
      Settle(b, Repr);
    }

    /** Sets the size of the used VMA `k`. */
    method Resize(v: Vma, pages: nat, ghost k: nat)
      requires Consistent() && k < |book.tiles| && book.tiles[k] == v && book.view[k].used
      requires 1 <= pages <= 0x1_0000_0000
      modifies Repr
      ensures Consistent() && Repr == old(Repr) && book.tiles == old(book.tiles)
      ensures book.view == old(book.view)[k := old(book.view)[k].(pages := pages)]
    {
      hide *;
      Open();
      UsedIsIdle(k);
      ghost var t := book.view[k].(pages := pages);
      ghost var others := book.idle - {v.bySize};
      LessIdle(book.idle, v.bySize);
      DetachedWith(v.bySize.head.value, pages - 1);
      v.bySize.head := v.bySize.head.(value := pages - 1);
      MoreIdle(others, v.bySize, pages - 1);
      ghost var b := book.(view := book.view[k := t], idle := others[v.bySize := pages - 1]);
      book.ChangedOk(vmas, k, t, b);
      ChangedOwned(k, t, b);
      Settle(b, Repr);
    }

    ghost predicate Insertable(v: Vma, start: nat, pages: nat, k: nat)
      reads this, v.Parts()
    {
      && v.allocator == this && v.Wired() && 1 <= pages <= 0x1_0000_0000 && start < 0x1_0000_0000
      && v.Unlinked(start, pages) && book.Unknown(v) && FitsAt(book.view, k, start)
    }

    /** The list half of `AddVma`. */
    method JoinList(v: Vma, prev: ListHead<Vma?>, ghost start: nat, ghost pages: nat, ghost k: nat)
      requires Consistent() && Insertable(v, start, pages, k) && book.ring[k] == prev
      modifies prev`next, prev.next`prev, v.list`prev, v.list`next
      ensures Ring(book.ring[..k + 1] + [v.list] + book.ring[k + 1..])
      ensures byAddr.Valid() && bySize.Valid() && AllIdle(book.idle[v.bySize := pages - 1])
      ensures AllWired(book.home[v.bySize := v])
    {
      hide *;
      Open();
      InsertableFacts(v, start, pages, k);
      MoreWired(book.home, v);
      MoreIdle(book.idle, v.bySize, pages - 1);
      Unshift(prev, v.list, book.ring, k);
    }

    /** `list_unshift(prev, vma)` and `treap_insert(vma, BY_ADDR)`: a used VMA joins as number `k`. */
    method AddVma(v: Vma, prev: ListHead<Vma?>, ghost start: nat, ghost pages: nat, ghost k: nat)
      requires Consistent() && Insertable(v, start, pages, k) && book.ring[k] == prev
      modifies Repr, v.Parts()
      ensures Consistent() && Repr == old(Repr) + v.Parts()
      ensures book == old(book).Added(k, v, start, pages, book.addr)
      ensures book.addr.at.Keys == old(book).addr.at.Keys + {v.byAddr}
    {
      hide *;
      Open();
      InsertableFacts(v, start, pages, k);
      JoinList(v, prev, start, pages, k);
      ghost var p, priority := PutIn(byAddr, bySize, v.byAddr, book.ring[..k + 1] + [v.list] + book.ring[k + 1..],
                                         book.idle[v.bySize := pages - 1], book.home[v.bySize := v]);
      InsertedFacts(book.addr, byAddr.shape, v.byAddr, start, priority, p);
      book.BecomesAddable(vmas, k, v, start, pages, byAddr.shape, priority, p);
      ghost var b := book.Added(k, v, start, pages, byAddr.shape);
      book.AddedOk(vmas, k, v, start, pages, byAddr.shape);
      AddedFacts(v, start, pages, k, byAddr.shape);
      Settle(b, Repr + v.Parts());
    }

    lemma AddedFacts(v: Vma, start: nat, pages: nat, k: nat, addr': Shape<Vma?>)
      requires Owned(Repr, book) && book.Addable(k, v, start, pages, addr') && v.allocator == this
      ensures var b := book.Added(k, v, start, pages, addr');
        && Owned(Repr + v.Parts(), b) && b.addr == addr' && b.size == book.size
        && b.tiles == book.tiles[..k] + [v] + book.tiles[k..]
        && b.view == book.view[..k] + [Tile(start, pages, true)] + book.view[k..]
        && b.ring == book.ring[..k + 1] + [v.list] + book.ring[k + 1..]
        && b.idle == book.idle[v.bySize := pages - 1] && b.home == book.home[v.bySize := v]
    {
      var b := book.Added(k, v, start, pages, addr');
      forall w | w in b.tiles
        ensures w == v || w in book.tiles
      {
      }
      forall l | l in b.ring
        ensures l == v.list || l in book.ring
      {
      }
    }

    lemma InsertableFacts(v: Vma, start: nat, pages: nat, k: nat)
      requires Consistent() && Insertable(v, start, pages, k)
      ensures v.list.prev == v.list.next == v.list && v.list !in book.ring && k < |book.ring|
      ensures v.byAddr.head == Detached(start) && v.byAddr !in book.addr.at && v.byAddr.head.value == start
      ensures v.bySize.head == Detached(pages - 1) && v.allocator == this && v.Wired()
      ensures v.list in v.Parts() && v.byAddr in v.Parts() && v.bySize in v.Parts()
      ensures v.byAddr !in book.size.at && v.byAddr !in book.idle && v.byAddr != v.bySize
      ensures book.ring[k] in Repr && book.ring[k].next in Repr && k <= |book.tiles|
      ensures 1 <= pages <= 0x1_0000_0000 && start < 0x1_0000_0000 && book.Unknown(v) && FitsAt(book.view, k, start)
    {
    }

    lemma DroppableFacts(k: nat)
      requires Consistent() && k < |book.tiles| && !book.view[k].used
      ensures var v := book.tiles[k];
        && v.list == book.ring[k + 1] && v.list in Repr && v.list.prev in Repr && v.list.next in Repr
        && v.byAddr in book.addr.at && v.byAddr.head.value == book.view[k].start
        && v.bySize in book.size.at && v.bySize.head.value == book.view[k].pages - 1
        && v.byAddr !in book.size.at && v.bySize !in book.addr.at
      ensures |book.ring| == |book.tiles| + 1 && k + 1 < |book.ring|
    {
      var v := book.tiles[k];
      assert book.AddrAt(k) && book.SizeAt(v, book.view[k]);
      assert book.ring[k + 1] == v.list;
    }

    /** The list part of `DropVma`. */
    method LeaveList(v: Vma, ghost k: nat)
      requires Consistent() && k < |book.tiles| && book.tiles[k] == v && !book.view[k].used
      modifies v.list.prev`next, v.list.next`prev, v.list`prev, v.list`next
      ensures v.list.prev == v.list.next == v.list
      ensures k + 1 < |book.ring| && Ring(book.ring[..k + 1] + book.ring[k + 2..])
      ensures byAddr.Valid() && bySize.Valid() && AllIdle(book.idle) && AllWired(book.home)
    {
      hide *;
      Open();
      DroppableFacts(k);
      Lists.Remove(v.list, book.ring, k + 1);
    }

    /** The treap part of `DropVma`. */
    method LeaveTreaps(v: Vma, ghost ring: seq<ListHead<Vma?>>, ghost idle: map<TreapNode<Vma?>, u32>,
                       ghost home: map<TreapNode<Vma?>, Vma>)
      requires byAddr != bySize && byAddr.Valid() && bySize.Valid()
      requires v.byAddr in byAddr.shape.at && v.bySize in bySize.shape.at
      requires byAddr.shape.at.Keys !! bySize.shape.at.Keys !! idle.Keys
      requires Ring(ring) && AllIdle(idle) && AllWired(home)
      modifies byAddr, byAddr.shape.at.Keys`head, bySize, bySize.shape.at.Keys`head
      ensures byAddr.Valid() && bySize.Valid() && Ring(ring) && AllIdle(idle) && AllWired(home)
      ensures v.byAddr in old(byAddr.shape).span && Removed(old(byAddr.shape), byAddr.shape, v.byAddr)
      ensures v.bySize in old(bySize.shape).span && Removed(old(bySize.shape), bySize.shape, v.bySize)
    {
      hide *;
      TakeOut(byAddr, bySize, v.byAddr, ring, idle, home);
      RemovedFacts(old(byAddr.shape), byAddr.shape, v.byAddr);
      TakeOut(bySize, byAddr, v.bySize, ring, idle, home);
    }

    lemma RemovedBoth(k: nat, addr': Shape<Vma?>, size': Shape<Vma?>)
      requires book.Ok(vmas) && Owned(Repr, book) && book.addr.Ok() && k < |book.tiles| == |book.view|
      requires !book.view[k].used
      requires book.tiles[k].byAddr in book.addr.span && Removed(book.addr, addr', book.tiles[k].byAddr)
      requires book.tiles[k].bySize in book.size.span && Removed(book.size, size', book.tiles[k].bySize)
      ensures book.Droppable(k, addr', size') && Owned(Repr, book.Dropped(k, addr', size'))
      ensures var b := book.Dropped(k, addr', size');
        && b.tiles == book.tiles[..k] + book.tiles[k + 1..] && b.ring == book.ring[..k + 1] + book.ring[k + 2..]
        && b.addr == addr' && b.size == size' && b.idle == book.idle && b.home == book.home
    {
      assert book.AddrAt(k);
      assert book.addr.NodeOk(book.tiles[k].byAddr);
      RemovedFrom(book.addr, addr', book.tiles[k].byAddr);
      RemovedFrom(book.size, size', book.tiles[k].bySize);
      hide Shape.Ok, Book.SizeOk, Book.TilesOk, Book.Apart, Removed;
      var b := book.Dropped(k, addr', size');
      forall l | l in b.ring
        ensures l in book.ring
      {
      }
    }

    lemma RemovedFrom(s: Shape<Vma?>, s': Shape<Vma?>, n: TreapNode<Vma?>)
      requires n in s.span && Removed(s, s', n)
      ensures var k := s.span[n].pos;
        k < |s.order| && s.order[k] == n && s'.order == s.order[..k] + s.order[k + 1..] && s'.at.Keys == s.at.Keys - {n}
      ensures forall m :: m in s'.at && m in s.at ==> s'.at[m].value == s.at[m].value
    {
    }

    lemma DroppedBook(k: nat, addr': Shape<Vma?>, size': Shape<Vma?>) returns (b: Book)
      requires book.Ok(vmas) && Owned(Repr, book) && book.addr.Ok() && k < |book.tiles| == |book.view|
      requires !book.view[k].used
      requires forall i, j :: 0 <= i < j < |book.ring| ==> book.ring[i] != book.ring[j]
      requires book.tiles[k].byAddr in book.addr.span && Removed(book.addr, addr', book.tiles[k].byAddr)
      requires book.tiles[k].bySize in book.size.span && Removed(book.size, size', book.tiles[k].bySize)
      ensures book.Droppable(k, addr', size') && b == book.Dropped(k, addr', size')
      ensures b.Ok(vmas) && Owned(Repr, b) && b.Spare(book.tiles[k])
      ensures |book.ring| == |book.tiles| + 1 && b.tiles == book.tiles[..k] + book.tiles[k + 1..]
      ensures b.view == book.view[..k] + book.view[k + 1..] && b.ring == book.ring[..k + 1] + book.ring[k + 2..]
      ensures b.addr == addr' && b.size == size' && b.idle == book.idle && b.home == book.home
    {
      RemovedBoth(k, addr', size');
      book.DroppedOk(vmas, k, addr', size');
      book.DroppedUnknown(vmas, k, addr', size');
      b := book.Dropped(k, addr', size');
    }

    /**
      `list_remove(vma)`, `treap_remove(vma, BY_ADDR)`, `treap_remove(vma, BY_SIZE)`: the free VMA `k`
      leaves all three structures.
     */
    method DropVma(v: Vma, ghost k: nat)
      requires Consistent() && k < |book.tiles| && book.tiles[k] == v && !book.view[k].used
      modifies Repr
      ensures Consistent() && Repr == old(Repr)
      ensures |old(book).ring| == |old(book).tiles| + 1 && book.Spare(v)
      ensures book.tiles == old(book.tiles)[..k] + old(book.tiles)[k + 1..]
      ensures book.view == old(book.view)[..k] + old(book.view)[k + 1..]
      ensures book.ring == old(book.ring)[..k + 1] + old(book.ring)[k + 2..]
    {
      hide *;
      Open();
      DroppableFacts(k);
      ghost var ring := book.ring[..k + 1] + book.ring[k + 2..];
      LeaveList(v, k);
      LeaveTreaps(v, ring, book.idle, book.home);
      ghost var b := DroppedBook(k, byAddr.shape, bySize.shape);
      Settle(b, Repr);
    }

    // ----- the allocator as its clients see it

    ghost function Pages(): int { (hiAddress - loAddress) / 4096 }

    ghost predicate Valid()
      reads this, byAddr, bySize, Repr
    {
      && Consistent() && loAddress % 4096 == 0 && hiAddress % 4096 == 0 && loAddress < hiAddress
      && Pages() <= 0x1_0000_0000 && Tiling(book.view, 0, Pages()) && Coalesced(book.view)
    }

    /** The tile that VMA number `k` covers, in bytes. */
    ghost predicate Covers(v: Vma, k: nat)
      reads this
    {
      k < |book.tiles| && book.tiles[k] == v
    }

    lemma Bounds(k: nat)
      requires Consistent() && k < |book.tiles|
      ensures var v := book.tiles[k];
        && v.allocator == this && v.byAddr.head.value == book.view[k].start
        && v.bySize.head.value == book.view[k].pages - 1
        && (v.bySize.head.priority != 0 <==> !book.view[k].used)
        && v.list.owner == v && v.byAddr.owner == v && v.bySize.owner == v
    {
      var v := book.tiles[k];
      assert book.AddrAt(k) && book.SizeAt(v, book.view[k]);
    }

    /** Where the search for tile `k` stands when it has come to node `n`. */
    ghost predicate Searching(n: TreapNode<Vma?>, k: nat)
      reads this
    {
      n in book.addr.at && n in book.addr.span && book.addr.span[n].lo <= k < book.addr.span[n].hi
    }

    lemma SearchAt(n: TreapNode<Vma?>, k: nat, page: nat) returns (i: nat)
      requires Valid() && Searching(n, k) && k < |book.tiles| && book.view[k].Has(page)
      ensures i < |book.tiles| && n == book.tiles[i].byAddr
      ensures !book.view[i].Has(page) ==>
        n.head.Child(if page < book.view[i].start then LeftChild else RightChild) != null
      ensures book.view[i].Has(page) ==> i == k
      ensures page < book.view[i].start ==>
        && n.head.left != null && Searching(n.head.left, k)
        && book.addr.span[n.head.left].hi - book.addr.span[n.head.left].lo < book.addr.span[n].hi - book.addr.span[n].lo
      ensures book.view[i].End() <= page ==>
        && n.head.right != null && Searching(n.head.right, k)
        && (book.addr.span[n.head.right].hi - book.addr.span[n.head.right].lo
            < book.addr.span[n].hi - book.addr.span[n].lo)
    {
      assert book.addr.NodeOk(n) && n.head == book.addr.at[n];
      i := book.addr.span[n].pos;
      assert book.AddrAt(i);
      TilingOrder(book.view, 0, Pages(), if i < k then i else k, if i < k then k else i);
      assert book.addr.ChildOk(n, LeftChild) && book.addr.ChildOk(n, RightChild);
    }

    lemma SearchRoot(k: nat)
      requires Valid() && k < |book.tiles|
      ensures byAddr.root != null && Searching(byAddr.root, k)
    {
    }

    lemma PageOf(addr: nat, i: nat)
      requires Valid() && loAddress <= addr && i < |book.view|
      ensures var lo := loAddress + book.view[i].start * 4096; var page := (addr - loAddress) / 4096;
        && (addr < lo <==> page < book.view[i].start)
        && (lo + book.view[i].pages * 4096 <= addr <==> book.view[i].End() <= page)
    {
    }

    /** `vma_find`: the one VMA that covers the address. */
    method Find(addr: nat) returns (vma: Vma, ghost k: nat)
      requires Valid() && loAddress <= addr < hiAddress
      ensures Covers(vma, k) && k < |book.view| && book.view[k].Has((addr - loAddress) / 4096)
    {
      ghost var page := (addr - loAddress) / 4096;
      k := OneTileHas(book.view, 0, Pages(), page);
      SearchRoot(k);
      hide *;
      Open();
      var n: TreapNode<Vma?> := byAddr.root;
      while true
        invariant Searching(n, k)
        decreases book.addr.span[n].hi - book.addr.span[n].lo
      {
        ghost var i := SearchAt(n, k, page);
        Bounds(i);
        PageOf(addr, i);
        vma := n.owner;
        var start, end := vma.ReadBounds();
        if addr < start {
          n := n.head.left;
        } else if end <= addr {
          n := n.head.right;
        } else {
          break;
        }
      }
    }

    /**
      The search of `vma_alloc`: the nodes before `lo` are too small, and `best`, if there is one, is
      the node at `hi`, so the smallest of the others.
     */
    ghost predicate Narrowed(best: TreapNode?<Vma?>, lo: nat, hi: nat, pages: nat)
      reads this
    {
      var s := book.size;
      && lo <= hi <= |s.order|
      && (forall i :: 0 <= i < |s.order| ==> s.order[i] in s.at)
      && (forall i :: 0 <= i < lo ==> s.at[s.order[i]].value + 1 < pages)
      && (best == null ==> hi == |s.order|)
      && (best != null ==> hi < |s.order| && s.order[hi] == best && pages <= s.at[best].value + 1)
    }

    ghost predicate Within(n: TreapNode?<Vma?>, lo: nat, hi: nat)
      reads this
    {
      if n == null then lo == hi
      else n in book.size.at && n in book.size.span && book.size.span[n].lo == lo && book.size.span[n].hi == hi
    }

    lemma NothingLeft(lo: nat, hi: nat)
      ensures Within(null, lo, hi) ==> lo == hi
    {
    }

    lemma SearchAll(n: TreapNode?<Vma?>, pages: nat)
      requires Settled() && n == bySize.root
      ensures Narrowed(null, 0, |book.size.order|, pages) && Within(n, 0, |book.size.order|)
    {
    }

    lemma NarrowStep(n: TreapNode<Vma?>, best: TreapNode?<Vma?>, lo: nat, hi: nat, pages: nat)
      requires Settled() && Narrowed(best, lo, hi, pages) && Within(n, lo, hi)
      ensures n in book.size.span && n in book.size.at && n.head == book.size.at[n] && n.owner != null
      ensures n.owner.bySize == n
      ensures var mid := book.size.span[n].pos;
        && lo <= mid < hi
        && (n.head.value + 1 < pages ==> Narrowed(best, mid + 1, hi, pages) && Within(n.head.right, mid + 1, hi))
        && (pages <= n.head.value + 1 ==> Narrowed(n, lo, mid, pages) && Within(n.head.left, lo, mid))
    {
      var s := book.size;
      assert s.NodeOk(n) && s.ChildOk(n, LeftChild) && s.ChildOk(n, RightChild);
      assert book.IsFreeNode(n);
      var mid := s.span[n].pos;
      assert s.order[mid] == n;
    }

    /** A search that has run out, or that has hit the size exactly, has found the best fit. */
    lemma NarrowedIsBest(best: TreapNode?<Vma?>, lo: nat, hi: nat, pages: nat) returns (k: nat)
      requires Settled() && Narrowed(best, lo, hi, pages)
      requires lo == hi || (best != null && book.size.at[best].value + 1 == pages)
      ensures best == null ==> forall j: nat :: !Fits(book.view, pages, j)
      ensures best != null ==> k < |book.tiles| && best == book.tiles[k].bySize && BestFit(book.view, pages, k)
    {
      var s := book.size;
      k := 0;
      forall j: nat | Fits(book.view, pages, j)
        ensures best != null && s.at[best].value <= book.view[j].pages - 1
      {
        var n := book.tiles[j].bySize;
        assert book.SizeAt(book.tiles[j], book.view[j]) && s.NodeOk(n);
        assert s.order[s.span[n].pos] == n;
      }
      if best != null {
        assert book.IsFreeNode(best);
        k :| 0 <= k < |book.tiles| && book.tiles[k].bySize == best && !book.view[k].used
             && book.SizeAt(book.tiles[k], book.view[k]);
      }
    }

    /** The search of `vma_alloc` for the smallest free VMA that is big enough. */
    method SmallestFit(pages: nat) returns (bestFit: Vma?, ghost k: nat)
      requires Consistent() && pages > 0
      ensures bestFit == null ==> forall j: nat :: !Fits(book.view, pages, j)
      ensures bestFit != null ==> Covers(bestFit, k) && BestFit(book.view, pages, k)
    {
      hide *;
      SettledNow();
      bestFit, k := Search(pages);
    }

    ghost predicate Settled()
      reads this, byAddr, bySize, Repr
    {
      Consistent()
    }

    lemma SettledNow()
      requires Consistent()
      ensures Settled()
    {
    }

    /** The loop of that search. */
    method Search(pages: nat) returns (bestFit: Vma?, ghost k: nat)
      requires Settled() && pages > 0
      ensures bestFit == null ==> forall j: nat :: !Fits(book.view, pages, j)
      ensures bestFit != null ==> Covers(bestFit, k) && BestFit(book.view, pages, k)
    {
      hide *;
      var wantedSize := pages * 4096;
      var n := bySize.root;
      bestFit := null;
      ghost var best: TreapNode?<Vma?> := null;
      ghost var lo: nat, hi: nat := 0, |book.size.order|;
      SearchAll(n, pages);
      while n != null
        invariant Narrowed(best, lo, hi, pages) && Within(n, lo, hi)
        invariant if best == null then bestFit == null
                  else bestFit == best.owner && bestFit != null && bestFit.bySize == best
        decreases hi - lo, n != null
      {
        NarrowStep(n, best, lo, hi, pages);
        var size := (n.head.value + 1) * 4096;
        assert size < wantedSize <==> n.head.value + 1 < pages;
        if size < wantedSize {
          lo := book.size.span[n].pos + 1;
          n := n.head.right;
        } else if size > wantedSize {
          best, hi := n, book.size.span[n].pos;
          bestFit := n.owner;
          n := n.head.left;
        } else {
          best, hi := n, book.size.span[n].pos;
          bestFit := n.owner;
          break;
        }
      }
      NothingLeft(lo, hi);
      k := NarrowedIsBest(best, lo, hi, pages);
      if bestFit != null {
        SameOwner(bestFit, k);
      }
    }

    lemma SameOwner(v: Vma, k: nat)
      requires Settled() && k < |book.tiles| && v.bySize == book.tiles[k].bySize && v.bySize.owner == v
      ensures Covers(v, k)
    {
    }

    /** A new VMA for `pages` pages from `start` on joins right after the link `prev`, as number `k`. */
    method AddNew(prev: ListHead<Vma?>, start: nat, pages: nat, ghost k: nat) returns (v: Vma)
      requires Consistent() && k < |book.ring| && book.ring[k] == prev
      requires FitsAt(book.view, k, start) && start < 0x1_0000_0000 && 1 <= pages <= 0x1_0000_0000
      modifies Repr
      ensures Consistent() && fresh(Repr - old(Repr)) && fresh(v.Parts()) && v.Parts() <= Repr
      ensures k <= |old(book).tiles| == |old(book).view| && k < |old(book).ring|
      ensures book == old(book).Added(k, v, start, pages, book.addr)
      ensures book.addr.at.Keys == old(book).addr.at.Keys + {v.byAddr}
    {
      v := new Vma(this, start, pages);
      NewIsInsertable(v, start, pages, k);
      hide *;
      AddVma(v, prev, start, pages, k);
    }

    lemma NewIsInsertable(v: Vma, start: nat, pages: nat, k: nat)
      requires Consistent() && k < |book.ring| && FitsAt(book.view, k, start)
      requires v.Parts() !! Repr && v.Wired() && v.byAddr != v.bySize && v.allocator == this
      requires start < 0x1_0000_0000 && 1 <= pages <= 0x1_0000_0000 && v.Unlinked(start, pages)
      ensures Insertable(v, start, pages, k)
    {
    }

    lemma TailFitsAt(ts: seq<Tile>, hi: nat, k: nat, pages: nat, t: Tile)
      requires Tiling(ts, 0, hi) && k < |ts| && t.start == ts[k].start && 0 < pages < ts[k].pages
      ensures FitsAt(ts[k := t], k + 1, ts[k].start + pages)
    {
      forall i | 0 <= i < |ts|
        ensures if i <= k then ts[i].start <= ts[k].start else ts[k].End() <= ts[i].start
      {
        TilingOrder(ts, 0, hi, if i < k then i else k, if i < k then k else i);
      }
    }

    lemma CarvedTail(ts: seq<Tile>, k: nat, pages: nat)
      requires k < |ts| && 0 < pages < ts[k].pages && !ts[k].used
      ensures var mid := ts[k := Tile(ts[k].start, pages, true)];
        var rest := Tile(ts[k].start + pages, ts[k].pages - pages, true);
        (mid[..k + 1] + [rest] + mid[k + 1..])[k + 1 := rest.(used := false)]
          == Carve(ts, k, ts[k].start, ts[k].start + pages)
    {
    }

    lemma SplitBook(b: Book, b': Book, k: nat, pages: nat, v: Vma, w: Vma)
      requires k < |b.tiles| == |b.view| && 0 < pages < b.view[k].pages && !b.view[k].used && b.tiles[k] == v
      requires var mid := b.view[k := Tile(b.view[k].start, pages, true)];
        var rest := Tile(b.view[k].start + pages, b.view[k].pages - pages, true);
        && b'.tiles == b.tiles[..k + 1] + [w] + b.tiles[k + 1..]
        && b'.view == (mid[..k + 1] + [rest] + mid[k + 1..])[k + 1 := rest.(used := false)]
      ensures b'.view == Carve(b.view, k, b.view[k].start, b.view[k].start + pages)
      ensures b.Keeps(b', null) && b'.tiles[k] == v
    {
      CarvedTail(b.view, k, pages);
      b.SplicedKeeps(b', k, k + 1, [v, w], b'.view[k..k + 2], null);
    }

    /** The free VMA `k` becomes used and keeps its first `pages` pages only. */
    method Shrink(v: Vma, pages: nat, ghost k: nat)
      requires Consistent() && k < |book.tiles| == |book.view| && book.tiles[k] == v && !book.view[k].used
      requires 1 <= pages <= 0x1_0000_0000
      modifies Repr
      ensures Consistent() && Repr == old(Repr) && book.tiles == old(book.tiles)
      ensures book.view == old(book.view)[k := Tile(old(book.view)[k].start, pages, true)]
    {
      hide *;
      MarkUsed(v, k);
      Resize(v, pages, k);
    }

    lemma AddedBook(b: Book, k: nat, v: Vma, start: nat, pages: nat, addr': Shape<Vma?>)
      requires k <= |b.tiles| == |b.view| && k < |b.ring| && 1 <= pages <= 0x1_0000_0000
      ensures var b' := b.Added(k, v, start, pages, addr');
        && b'.tiles == b.tiles[..k] + [v] + b.tiles[k..]
        && b'.view == b.view[..k] + [Tile(start, pages, true)] + b.view[k..]
        && b'.ring == b.ring[..k + 1] + [v.list] + b.ring[k + 1..]
    {
    }

    lemma LinkOf(k: nat)
      requires Consistent() && k < |book.tiles|
      ensures |book.ring| == |book.tiles| + 1 == |book.view| + 1
      ensures book.ring[k + 1] == book.tiles[k].list
    {
    }

    /** The first `pages` pages of the free VMA `k` become used; the rest goes to a new free VMA. */
    method SplitTail(v: Vma, pages: nat, ghost k: nat, ghost hi: nat)
      requires Consistent() && k < |book.tiles| == |book.view| && book.tiles[k] == v
      requires !book.view[k].used && 0 < pages < book.view[k].pages
      requires Tiling(book.view, 0, hi) && hi <= 0x1_0000_0000
      modifies Repr
      ensures Consistent() && fresh(Repr - old(Repr)) && k < |book.tiles| && book.tiles[k] == v
      ensures book.view == Carve(old(book.view), k, old(book.view)[k].start, old(book.view)[k].start + pages)
      ensures old(book).Keeps(book, null)
    {
      hide *;
      ghost var b0, ts := book, book.view;
      ghost var start, size := ts[k].start, ts[k].pages;
      TilingBounds(ts, hi, k);
      TailFitsAt(ts, hi, k, pages, Tile(start, pages, true));
      Bounds(k);
      LinkOf(k);
      var oldLo, oldHi := v.ReadBounds();
      Shrink(v, pages, k);
      Bounds(k);
      LinkOf(k);
      var newLo, newHi := v.ReadBounds();
      InPages(start + pages, start + size);
      var w := AddTail(v.list, (newHi - loAddress) / 4096, (oldHi - newHi) / 4096, k + 1);
      SplitBook(b0, book, k, pages, v, w);
    }

    /** A new free VMA joins right after the link `prev`, as number `k`. */
    method AddTail(prev: ListHead<Vma?>, start: nat, pages: nat, ghost k: nat) returns (w: Vma)
      requires Consistent() && k < |book.ring| && book.ring[k] == prev && k <= |book.tiles| == |book.view|
      requires FitsAt(book.view, k, start) && start < 0x1_0000_0000 && 1 <= pages <= 0x1_0000_0000
      modifies Repr
      ensures Consistent() && fresh(Repr - old(Repr))
      ensures book.tiles == old(book.tiles)[..k] + [w] + old(book.tiles)[k..]
      ensures var ts := old(book.view);
        book.view == (ts[..k] + [Tile(start, pages, true)] + ts[k..])[k := Tile(start, pages, false)]
    {
      hide *;
      ghost var b1 := book;
      w := AddNew(prev, start, pages, k);
      AddedBook(b1, k, w, start, pages, book.addr);
      MarkFree(w, k);
    }

    lemma InPages(a: nat, b: nat)
      requires a <= b
      ensures (loAddress + a * 4096 - loAddress) / 4096 == a
      ensures ((loAddress + b * 4096) - (loAddress + a * 4096)) / 4096 == b - a
    {
    }

    lemma TilingBounds(ts: seq<Tile>, hi: nat, k: nat)
      requires Tiling(ts, 0, hi) && k < |ts|
      ensures ts[k].start + ts[k].pages <= hi
    {
      TilingCut(ts, 0, hi, k);
    }

    /** `vma_init` on a VMA that has been here before. */
    method Reinit(v: Vma, start: nat, pages: nat, ghost k: nat)
      requires Consistent() && book.Spare(v) && FitsAt(book.view, k, start)
      requires start < 0x1_0000_0000 && 1 <= pages <= 0x1_0000_0000
      modifies v.list`prev, v.list`next, v.byAddr`head, v.bySize`head
      ensures Consistent() && Insertable(v, start, pages, k) && v.Parts() <= Repr
    {
      Open();
      SpareFacts(v);
      hide *;
      ResetParts(v, start, pages, book.ring, book.idle, book.home);
      Close();
      SpareInsertable(v, start, pages, k);
    }

    lemma SpareFacts(v: Vma)
      requires Consistent() && book.Spare(v)
      ensures v.byAddr !in byAddr.shape.at && v.byAddr !in bySize.shape.at && v.byAddr !in book.idle
      ensures v.bySize !in byAddr.shape.at && v.bySize !in bySize.shape.at && v.bySize !in book.idle
      ensures v.list !in book.ring && v.byAddr != v.bySize
    {
    }

    lemma SpareInsertable(v: Vma, start: nat, pages: nat, k: nat)
      requires Consistent() && book.Spare(v) && FitsAt(book.view, k, start)
      requires start < 0x1_0000_0000 && 1 <= pages <= 0x1_0000_0000
      requires v.list.prev == v.list.next == v.list && v.byAddr.head == Detached(start)
      requires v.bySize.head == Detached(pages - 1)
      ensures Insertable(v, start, pages, k) && v.Parts() <= Repr
    {
    }

    method ResetParts(v: Vma, start: u32, pages: nat, ghost ring: seq<ListHead<Vma?>>,
                      ghost idle: map<TreapNode<Vma?>, u32>, ghost home: map<TreapNode<Vma?>, Vma>)
      requires 1 <= pages <= 0x1_0000_0000 && v.byAddr != v.bySize
      requires v.byAddr !in byAddr.shape.at && v.byAddr !in bySize.shape.at && v.byAddr !in idle
      requires v.bySize !in byAddr.shape.at && v.bySize !in bySize.shape.at && v.bySize !in idle && v.list !in ring
      requires Ring(ring) && byAddr.Valid() && bySize.Valid() && AllIdle(idle) && AllWired(home)
      modifies v.list`prev, v.list`next, v.byAddr`head, v.bySize`head
      ensures v.list.prev == v.list.next == v.list && v.byAddr.head == Detached(start)
      ensures v.bySize.head == Detached(pages - 1)
      ensures Ring(ring) && byAddr.Valid() && bySize.Valid() && AllIdle(idle) && AllWired(home)
    {
      hide *;
      v.list.prev, v.list.next := v.list, v.list;
      v.byAddr.head := Detached(start);
      v.bySize.head := Detached(pages - 1);
    }

    lemma StillSpare(b: Book, b': Book, k: nat, w: Vma, start: nat, pages: nat, v: Vma, repr: set<object>)
      requires Owned(repr, b) && b.Spare(v)
      requires w.Parts() !! repr && k <= |b.tiles| == |b.view| && k < |b.ring| && 1 <= pages <= 0x1_0000_0000
      requires b' == b.Added(k, w, start, pages, b'.addr) && b'.addr.at.Keys == b.addr.at.Keys + {w.byAddr}
      ensures b'.Spare(v)
    {
      assert v.list in repr && v.byAddr in repr && v.bySize in repr;
      assert w.list in w.Parts() && w.byAddr in w.Parts() && w.bySize in w.Parts();
    }

    /** A new free VMA for `pages` pages from `start` on joins as number `k`; `spare` stays spare. */
    method AddFree(prev: ListHead<Vma?>, start: nat, pages: nat, ghost k: nat, ghost spare: Vma?)
      requires Consistent() && k < |book.ring| && book.ring[k] == prev && (spare != null ==> book.Spare(spare))
      requires FitsAt(book.view, k, start) && start < 0x1_0000_0000 && 1 <= pages <= 0x1_0000_0000
      modifies Repr
      ensures Consistent() && fresh(Repr - old(Repr)) && (spare != null ==> book.Spare(spare))
      ensures k <= |old(book).tiles| == |old(book).view| && k < |old(book).ring|
      ensures exists w :: book.tiles == old(book.tiles)[..k] + [w] + old(book.tiles)[k..]
      ensures book.view == old(book.view)[..k] + [Tile(start, pages, false)] + old(book.view)[k..]
      ensures k < |book.ring| && book.ring[k] == prev
    {
      hide *;
      ghost var b0, repr := book, Repr;
      Open();
      var w := AddNew(prev, start, pages, k);
      AddedBook(b0, k, w, start, pages, book.addr);
      if spare != null {
        StillSpare(b0, book, k, w, start, pages, spare, repr);
      }
      Open();
      ghost var b1 := book;
      MarkFree(w, k);
      if spare != null {
        SpareAfterFree(b1, book, k, spare);
      }
    }

    lemma SpareAfterFree(b: Book, b': Book, k: nat, v: Vma)
      requires b.Ok(vmas) && b.Spare(v) && k < |b.tiles| && b.view[k].used
      requires b' == b.(view := b'.view, size := b'.size, idle := b'.idle)
      requires b'.size.at.Keys <= b.size.at.Keys + {b.tiles[k].bySize}
      requires b'.idle.Keys <= b.idle.Keys + {b.tiles[k].bySize}
      ensures b'.Spare(v)
    {
      assert b.SizeAt(b.tiles[k], b.view[k]);
    }

    lemma Opened()
      requires Valid()
      ensures Consistent() && |book.tiles| == |book.view| && 0 < Pages() <= 0x1_0000_0000
      ensures Tiling(book.view, 0, Pages()) && Coalesced(book.view) && BaseOk()
    {
    }

    ghost predicate BaseOk() {
      && loAddress % 4096 == 0 && hiAddress % 4096 == 0 && loAddress < hiAddress && Pages() <= 0x1_0000_0000
    }

    lemma Closed()
      requires Consistent() && BaseOk() && Tiling(book.view, 0, Pages()) && Coalesced(book.view)
      ensures Valid()
    {
    }

    lemma CarvedWhole(ts: seq<Tile>, k: nat)
      requires k < |ts| && !ts[k].used && ts[k].pages > 0
      ensures Carve(ts, k, ts[k].start, ts[k].End()) == ts[k := ts[k].(used := true)]
    {
    }

    lemma KeepsChanged(b: Book, b': Book, k: nat, t: Tile)
      requires k < |b.tiles| == |b.view| && b'.tiles == b.tiles && !b.view[k].used && b'.view == b.view[k := t]
      ensures b.Keeps(b', null)
    {
      forall m | 0 <= m < |b.tiles| && b.view[m].used
        ensures b'.HasTile(b.tiles[m], b.view[m])
      {
        assert b'.tiles[m] == b.tiles[m] && b'.view[m] == b.view[m];
      }
    }

    /** The free VMA `k` becomes used as a whole. */
    method TakeWhole(v: Vma, ghost k: nat)
      requires Consistent() && k < |book.tiles| == |book.view| && book.tiles[k] == v
      requires !book.view[k].used && book.view[k].pages > 0
      modifies Repr
      ensures Consistent() && Repr == old(Repr) && k < |book.tiles| && book.tiles[k] == v
      ensures book.view == Carve(old(book.view), k, old(book.view)[k].start,
                                 old(book.view)[k].start + old(book.view)[k].pages)
      ensures old(book).Keeps(book, null)
    {
      hide *;
      ghost var b := book;
      MarkUsed(v, k);
      WholeBook(b, book, k, v);
    }

    lemma WholeBook(b: Book, b': Book, k: nat, v: Vma)
      requires k < |b.tiles| == |b.view| && b'.tiles == b.tiles && b.tiles[k] == v && !b.view[k].used
      requires b.view[k].pages > 0
      requires b'.view == b.view[k := b.view[k].(used := true)]
      ensures b'.view == Carve(b.view, k, b.view[k].start, b.view[k].start + b.view[k].pages) && b.Keeps(b', null)
    {
      CarvedWhole(b.view, k);
      KeepsChanged(b, b', k, b'.view[k]);
    }

    lemma FitFacts(pages: nat, k: nat)
      requires BestFit(book.view, pages, k)
      ensures k < |book.view| && !book.view[k].used && pages <= book.view[k].pages
      ensures pages > 0 ==> Carvable(book.view, k, book.view[k].start, book.view[k].start + pages)
    {
    }

    lemma CoversFacts(v: Vma, k: nat)
      requires Covers(v, k)
      ensures k < |book.tiles| && book.tiles[k] == v
    {
    }

    /**
      `vma_alloc`. `metadata` says whether memory for a `struct vma` can be had; without it the split
      halts the kernel.
     */
    method Alloc(numPages: nat, metadata: bool) returns (r: Outcome, ghost k: nat)
      requires Valid() && 0 < numPages <= 0x400_0000
      modifies Repr
      ensures Valid() && fresh(Repr - old(Repr))
      ensures r == NoSpace <==> forall j: nat :: !Fits(old(book).view, numPages, j)
      ensures r != NoMetadata && (r == Halted ==> !metadata)
      ensures r != NoSpace ==>
        BestFit(old(book).view, numPages, k) && k < |old(book).view| && (r == Halted <==>
          !metadata && numPages < old(book).view[k].pages)
      ensures !r.Allocated? ==> book == old(book)
      ensures r.Allocated? ==>
        && k < |old(book).tiles| && k < |book.tiles| && book.tiles[k] == r.vma
        && book.view == Carve(old(book).view, k, old(book).view[k].start, old(book).view[k].start + numPages)
        && old(book).Keeps(book, null) && r.vma == old(book).tiles[k]
    {
      hide *;
      Opened();
      ghost var b := book;
      var bestFit;
      bestFit, k := SmallestFit(numPages);
      if bestFit == null {
        return NoSpace, k;
      }
      var vma: Vma := bestFit;
      FitFacts(numPages, k);
      CoversFacts(vma, k);
      SomeFit(numPages, k);
      Bounds(k);
      var lo, hi := vma.ReadBounds();
      if hi - lo > numPages * 4096 {
        if !metadata {
          return Halted, k;
        }
        SplitTail(vma, numPages, k, Pages());
      } else {
        TakeWhole(vma, k);
      }
      CarveKeeps(b.view, 0, Pages(), k, b.view[k].start, b.view[k].start + numPages);
      Closed();
      r := Allocated(vma);
    }

    lemma SomeFit(pages: nat, k: nat)
      requires BestFit(book.view, pages, k)
      ensures !(forall j: nat :: !Fits(book.view, pages, j))
    {
    }

    lemma FitsBetween(before: seq<Tile>, after: seq<Tile>, start: nat)
      requires forall i :: 0 <= i < |before| ==> before[i].start < start
      requires forall i :: 0 <= i < |after| ==> start < after[i].start
      ensures FitsAt(before + after, |before|, start)
    {
    }

    lemma InsertBetween<T>(before: seq<T>, after: seq<T>, x: T)
      ensures (before + after)[..|before|] + [x] + (before + after)[|before|..] == before + ([x] + after)
    {
    }

    lemma Around(ts: seq<Tile>, hi: nat, k: nat)
      requires Tiling(ts, 0, hi) && k < |ts|
      ensures forall i :: 0 <= i < k ==> ts[..k][i].start < ts[k].start
      ensures var after := ts[k + 1..]; forall i :: 0 <= i < |after| ==> ts[k].start + ts[k].pages <= after[i].start
      ensures ts[k].start + ts[k].pages <= hi && ts[k].pages > 0
    {
      forall i | 0 <= i < |ts|
        ensures i < k ==> ts[i].start < ts[k].start
        ensures k < i ==> ts[k].End() <= ts[i].start
      {
        TilingOrder(ts, 0, hi, if i < k then i else k, if i < k then k else i);
      }
      TilingCut(ts, 0, hi, k);
    }

    /** The list is `before` and `after`, with VMA `vma` taken out from between them. */
    ghost predicate OpenAt(vma: Vma?, prev: ListHead<Vma?>, before: seq<Tile>, after: seq<Tile>,
                           tilesBefore: seq<Vma>, tilesAfter: seq<Vma>)
      reads this
    {
      && book.view == before + after && book.tiles == tilesBefore + tilesAfter
      && |before| == |tilesBefore| && |after| == |tilesAfter|
      && (vma != null ==> book.Spare(vma)) && |before| < |book.ring| && book.ring[|before|] == prev
    }

    /** A free VMA joins between `before` and `after`. */
    method PutFree(ghost vma: Vma?, prev: ListHead<Vma?>, start: nat, pages: nat, ghost before: seq<Tile>,
                   ghost after: seq<Tile>,
                   ghost tilesBefore: seq<Vma>, ghost tilesAfter: seq<Vma>)
      returns (ghost w: Vma)
      requires Consistent() && OpenAt(vma, prev, before, after, tilesBefore, tilesAfter)
      requires FitsAt(book.view, |before|, start) && start < 0x1_0000_0000 && 1 <= pages <= 0x1_0000_0000
      modifies Repr
      ensures Consistent() && fresh(Repr - old(Repr))
      ensures OpenAt(vma, prev, before, [Tile(start, pages, false)] + after, tilesBefore, [w] + tilesAfter)
    {
      AddFree(prev, start, pages, |before|, vma);
      w :| book.tiles == old(book.tiles)[..|before|] + [w] + old(book.tiles)[|before|..];
      InsertBetween(before, after, Tile(start, pages, false));
      InsertBetween(tilesBefore, tilesAfter, w);
    }

    /** The free VMA `k` leaves the allocator, and a gap opens in its place. */
    method PullOut(v: Vma, prev: ListHead<Vma?>, ghost k: nat)
      requires Consistent() && k < |book.tiles| == |book.view| && book.tiles[k] == v && !book.view[k].used
      requires k < |book.ring| && book.ring[k] == prev
      modifies Repr
      ensures Consistent() && Repr == old(Repr)
      ensures OpenAt(v, prev, old(book.view)[..k], old(book.view)[k + 1..],
                     old(book.tiles)[..k], old(book.tiles)[k + 1..])
    {
      DropVma(v, k);
    }

    /** The spare VMA comes back, used, with new bounds. */
    method PutBack(vma: Vma, prev: ListHead<Vma?>, start: nat, pages: nat, ghost before: seq<Tile>,
                   ghost after: seq<Tile>,
                   ghost tilesBefore: seq<Vma>, ghost tilesAfter: seq<Vma>)
      requires Consistent() && OpenAt(vma, prev, before, after, tilesBefore, tilesAfter)
      requires FitsAt(book.view, |before|, start) && start < 0x1_0000_0000 && 1 <= pages <= 0x1_0000_0000
      modifies Repr
      ensures Consistent() && Repr == old(Repr)
      ensures OpenAt(null, prev, before, [Tile(start, pages, true)] + after, tilesBefore, [vma] + tilesAfter)
    {
      hide *;
      ghost var b, k := book, |before|;
      OpenFacts(vma, prev, before, after, tilesBefore, tilesAfter);
      SpareParts(vma);
      Reinit(vma, start, pages, k);
      AddVma(vma, prev, start, pages, k);
      AddedBook(b, k, vma, start, pages, book.addr);
      InsertBetween(before, after, Tile(start, pages, true));
      InsertBetween(tilesBefore, tilesAfter, vma);
      IsOpen(prev, before, [Tile(start, pages, true)] + after, tilesBefore, [vma] + tilesAfter);
    }

    lemma IsOpen(prev: ListHead<Vma?>, before: seq<Tile>, after: seq<Tile>, tilesBefore: seq<Vma>, tilesAfter: seq<Vma>)
      requires book.view == before + after && book.tiles == tilesBefore + tilesAfter
      requires |before| == |tilesBefore| && |after| == |tilesAfter|
      requires |before| < |book.ring| && book.ring[|before|] == prev
      ensures OpenAt(null, prev, before, after, tilesBefore, tilesAfter)
    {
    }

    lemma SpareParts(v: Vma)
      requires Consistent() && book.Spare(v)
      ensures v.list in Repr && v.byAddr in Repr && v.bySize in Repr && v.Parts() <= Repr
    {
    }

    lemma OpenFacts(vma: Vma?, prev: ListHead<Vma?>, before: seq<Tile>, after: seq<Tile>,
                    tilesBefore: seq<Vma>, tilesAfter: seq<Vma>)
      requires OpenAt(vma, prev, before, after, tilesBefore, tilesAfter)
      ensures book.view == before + after && book.tiles == tilesBefore + tilesAfter
      ensures |before| == |tilesBefore| && |after| == |tilesAfter|
      ensures (vma != null ==> book.Spare(vma)) && |before| < |book.ring| && book.ring[|before|] == prev
    {
    }

    /** What is left over in `[lo, hi)`, if anything, becomes a free VMA between `before` and `after`. */
    method PutRest(ghost vma: Vma?, prev: ListHead<Vma?>, lo: nat, hi: nat, ghost before: seq<Tile>,
                   ghost after: seq<Tile>,
                   ghost tilesBefore: seq<Vma>, ghost tilesAfter: seq<Vma>)
      returns (ghost ws: seq<Vma>)
      requires Consistent() && OpenAt(vma, prev, before, after, tilesBefore, tilesAfter)
      requires lo <= hi <= 0x1_0000_0000
      requires forall i :: 0 <= i < |before| ==> before[i].start < lo
      requires forall i :: 0 <= i < |after| ==> hi <= after[i].start
      modifies Repr
      ensures Consistent() && fresh(Repr - old(Repr)) && |ws| == |Rest(lo, hi)|
      ensures OpenAt(vma, prev, before, Rest(lo, hi) + after, tilesBefore, ws + tilesAfter)
    {
      if lo != hi {
        FitsBetween(before, after, lo);
        ghost var w := PutFree(vma, prev, lo, hi - lo, before, after, tilesBefore, tilesAfter);
        ws := [w];
      } else {
        ws := [];
        assert Rest(lo, hi) + after == after && ws + tilesAfter == tilesAfter;
      }
    }

    /**
      The second half of `vma_alloc_by_addr`: the free VMA `k` gives way to a free VMA for the pages
      above `b`, itself cut down to `[a, b)`, and a free VMA for the pages below `a`.
     */
    method CarveOut(vma: Vma, a: nat, b: nat, vmaLo: nat, vmaHi: nat, ghost k: nat, ghost hi: nat)
      requires Consistent() && k < |book.tiles| == |book.view| && book.tiles[k] == vma
      requires Tiling(book.view, 0, hi) && hi <= 0x1_0000_0000 && Carvable(book.view, k, a, b)
      requires vmaLo == book.view[k].start && vmaHi == book.view[k].start + book.view[k].pages
      modifies Repr
      ensures Consistent() && fresh(Repr - old(Repr))
      ensures book.view == Carve(old(book).view, k, a, b)
      ensures Covers(vma, CarvedIndex(old(book).view, k, a)) && old(book).Keeps(book, null)
    {
      hide *;
      ghost var b0, ts := book, book.view;
      CarvableFacts(ts, k, a, b);
      Around(ts, hi, k);
      LinkOf(k);
      PrevLink(k);
      var prev := vma.list.prev;
      ghost var before, after := ts[..k], ts[k + 1..];
      ghost var tilesBefore, tilesAfter := book.tiles[..k], book.tiles[k + 1..];
      PullOut(vma, prev, k);
      ghost var high := PutRest(vma, prev, b, vmaHi, before, after, tilesBefore, tilesAfter);
      PutMiddle(vma, prev, a, b, vmaHi, before, after, tilesBefore, high + tilesAfter);
      StartsAfter(a, b, vmaHi, after);
      ghost var low := PutRest(null, prev, vmaLo, a, before, [Tile(a, b - a, true)] + (Rest(b, vmaHi) + after),
                               tilesBefore, [vma] + (high + tilesAfter));
      OpenFacts(null, prev, before, Rest(vmaLo, a) + ([Tile(a, b - a, true)] + (Rest(b, vmaHi) + after)),
                tilesBefore, low + ([vma] + (high + tilesAfter)));
      CarvedBook(b0, book, k, a, b, vma, low, high);
      DoesCover(vma, CarvedIndex(ts, k, a));
    }

    lemma StartsAfter(a: nat, b: nat, hi: nat, after: seq<Tile>)
      requires a < b <= hi && forall i :: 0 <= i < |after| ==> hi <= after[i].start
      ensures var rest := Rest(b, hi) + after; forall i :: 0 <= i < |rest| ==> a < rest[i].start
      ensures var rest := [Tile(a, b - a, true)] + (Rest(b, hi) + after);
        forall i :: 0 <= i < |rest| ==> a <= rest[i].start
    {
    }

    method PutMiddle(vma: Vma, prev: ListHead<Vma?>, a: nat, b: nat, hi: nat, ghost before: seq<Tile>,
                     ghost after: seq<Tile>,
                     ghost tilesBefore: seq<Vma>, ghost tilesAfter: seq<Vma>)
      requires Consistent() && OpenAt(vma, prev, before, Rest(b, hi) + after, tilesBefore, tilesAfter)
      requires a < b <= hi <= 0x1_0000_0000
      requires forall i :: 0 <= i < |before| ==> before[i].start < a
      requires forall i :: 0 <= i < |after| ==> hi <= after[i].start
      modifies Repr
      ensures Consistent() && Repr == old(Repr)
      ensures OpenAt(null, prev, before, [Tile(a, b - a, true)] + (Rest(b, hi) + after),
                     tilesBefore, [vma] + tilesAfter)
    {
      StartsAfter(a, b, hi, after);
      FitsBetween(before, Rest(b, hi) + after, a);
      PutBack(vma, prev, a, b - a, before, Rest(b, hi) + after, tilesBefore, tilesAfter);
    }

    lemma DoesCover(v: Vma, k: nat)
      requires k < |book.tiles| && book.tiles[k] == v
      ensures Covers(v, k)
    {
    }

    lemma CarvableFacts(ts: seq<Tile>, k: nat, a: nat, b: nat)
      requires Carvable(ts, k, a, b)
      ensures k < |ts| && !ts[k].used && ts[k].start <= a < b <= ts[k].start + ts[k].pages
    {
    }

    lemma PrevLink(k: nat)
      requires Consistent() && k < |book.tiles|
      ensures k < |book.ring| && book.tiles[k].list.prev == book.ring[k]
    {
      assert book.ring[k + 1] == book.tiles[k].list;
    }

    lemma CarvedBook(b: Book, b': Book, k: nat, lo: nat, hi: nat, v: Vma, low: seq<Vma>, high: seq<Vma>)
      requires k < |b.tiles| == |b.view| && Carvable(b.view, k, lo, hi) && b.tiles[k] == v
      requires var t := b.view[k];
        && b'.view == b.view[..k] + (Rest(t.start, lo) + ([Tile(lo, hi - lo, true)]
                      + (Rest(hi, t.start + t.pages) + b.view[k + 1..])))
        && |low| == |Rest(t.start, lo)| && |high| == |Rest(hi, t.start + t.pages)|
        && b'.tiles == b.tiles[..k] + (low + ([v] + (high + b.tiles[k + 1..])))
      ensures b'.view == Carve(b.view, k, lo, hi) && b.Keeps(b', null)
      ensures CarvedIndex(b.view, k, lo) < |b'.tiles| && b'.tiles[CarvedIndex(b.view, k, lo)] == v
    {
      assert b'.view == Carve(b.view, k, lo, hi);
      b.SplicedKeeps(b', k, k + 1, low + [v] + high, Middle(b.view[k], lo, hi), null);
    }

    /** Whether the range lies inside the free VMA `k`, told from bounds in bytes. */
    lemma RangeInVma(k: nat, lo: nat, hi: nat)
      requires Valid() && k < |book.view| && lo % 4096 == 0 && hi % 4096 == 0 && loAddress <= lo < hi
      requires book.view[k].Has((lo - loAddress) / 4096)
      ensures var a, b := (lo - loAddress) / 4096, (hi - loAddress) / 4096;
        && a < b && lo == loAddress + a * 4096 && hi == loAddress + b * 4096
        && (Carvable(book.view, k, a, b) <==>
              !book.view[k].used && hi <= loAddress + book.view[k].start * 4096 + book.view[k].pages * 4096)
        && (AllFree(book.view, a, b) <==> Carvable(book.view, k, a, b))
    {
      var a, b := WholePages(lo, hi);
      var t := book.view[k];
      assert t.start <= a < t.End();
      assert Carvable(book.view, k, a, b) <==> !t.used && b <= t.End();
      assert b <= t.End() <==> hi <= loAddress + t.start * 4096 + t.pages * 4096;
      ValidBook();
      hide *;
      OnlyHere(k, a, b, Pages());
    }

    lemma WholePages(lo: nat, hi: nat) returns (a: nat, b: nat)
      requires loAddress % 4096 == 0 && lo % 4096 == 0 && hi % 4096 == 0 && loAddress <= lo < hi
      ensures a == (lo - loAddress) / 4096 && b == (hi - loAddress) / 4096
      ensures a < b && lo == loAddress + a * 4096 && hi == loAddress + b * 4096
    {
      a, b := (lo - loAddress) / 4096, (hi - loAddress) / 4096;
    }

    /** A range that begins in tile `k` can be carved out of that tile, or of none. */
    lemma OnlyHere(k: nat, a: nat, b: nat, end: nat)
      requires Tiling(book.view, 0, end) && Coalesced(book.view) && k < |book.view| && book.view[k].Has(a) && a < b
      ensures AllFree(book.view, a, b) <==> Carvable(book.view, k, a, b)
    {
      CarvableIffAllFree(book.view, 0, end, a, b);
      hide AllFree, Tiling, Coalesced;
      forall j: nat | Carvable(book.view, j, a, b)
        ensures j == k
      {
        assert book.view[j].Has(a);
        if j != k {
          TilingOrder(book.view, 0, end, if j < k then j else k, if j < k then k else j);
        }
      }
    }

    /**
      `vma_alloc_by_addr`. `metadataLo` and `metadataHi` say whether memory for the two `struct vma` of
      the leftovers can be had.
     */
    method AllocByAddr(lo: nat, hi: nat, metadataLo: bool, metadataHi: bool) returns (r: Outcome, ghost k: nat)
      requires Valid() && lo % 4096 == 0 && hi % 4096 == 0 && lo < hi && loAddress <= lo < hiAddress
      modifies Repr
      ensures Valid() && fresh(Repr - old(Repr)) && r != Halted
      ensures !r.Allocated? ==> book == old(book)
      ensures var a, b := (lo - loAddress) / 4096, (hi - loAddress) / 4096; var ts := old(book).view;
        && (r == NoSpace <==> !AllFree(ts, a, b))
        && (r != NoSpace ==>
              && a < b && Carvable(ts, k, a, b)
              && (r == NoMetadata <==>
                    (ts[k].start < a && !metadataLo) || (b < ts[k].start + ts[k].pages && !metadataHi)))
        && (r.Allocated? ==>
              && book.view == Carve(ts, k, a, b) && Covers(r.vma, CarvedIndex(ts, k, a))
              && old(book).Keeps(book, null) && k < |old(book).tiles| && r.vma == old(book).tiles[k])
    {
      hide *;
      Opened();
      ghost var ts := book.view;
      var vma;
      vma, k := Find(lo);
      CoversFacts(vma, k);
      RangeInVma(k, lo, hi);
      Bounds(k);
      var free := vma.IsFree();
      if !free {
        return NoSpace, k;
      }
      var vmaLo, vmaHi := vma.ReadBounds();
      if vmaHi < hi {
        return NoSpace, k;
      }
      CarvableFacts(ts, k, (lo - loAddress) / 4096, (hi - loAddress) / 4096);
      if (vmaLo != lo && !metadataLo) || (vmaHi != hi && !metadataHi) {
        return NoMetadata, k;
      }
      CarveOut(vma, (lo - loAddress) / 4096, (hi - loAddress) / 4096, (vmaLo - loAddress) / 4096,
               (vmaHi - loAddress) / 4096, k, Pages());
      CarveKeeps(ts, 0, Pages(), k, (lo - loAddress) / 4096, (hi - loAddress) / 4096);
      Closed();
      r := Allocated(vma);
    }

    /** `vma_merge`: the free VMA `k` swallows its free successor. */
    method Merge(vma: Vma, ghost k: nat, ghost hi: nat)
      requires Consistent() && k + 1 < |book.tiles| == |book.view| && book.tiles[k] == vma
      requires !book.view[k].used && !book.view[k + 1].used && Tiling(book.view, 0, hi) && hi <= 0x1_0000_0000
      modifies Repr
      ensures Consistent() && Repr == old(Repr)
      ensures book.view == Joined(old(book).view, k)
      ensures book.tiles == old(book.tiles)[..k + 1] + old(book.tiles)[k + 2..]
    {
      hide *;
      ghost var ts := book.view;
      LinkOf(k);
      LinkOf(k + 1);
      NextLink(k);
      Bounds(k);
      Bounds(k + 1);
      JoinBounds(ts, k, hi);
      var next: Vma := vma.list.next.owner;
      var lo, _ := vma.ReadBounds();
      var _, end := next.ReadBounds();
      DropVma(next, k + 1);
      Shrink(vma, (end - lo) / 4096, k);
      MarkFree(vma, k);
      JoinedView(ts, k, hi);
    }

    lemma NextLink(k: nat)
      requires Consistent() && k < |book.tiles|
      ensures k + 1 < |book.ring| && book.tiles[k].list == book.ring[k + 1]
      ensures book.tiles[k].list.next == if k + 2 < |book.ring| then book.ring[k + 2] else vmas
      ensures book.tiles[k].list.next != vmas <==> k + 1 < |book.tiles|
      ensures book.tiles[k].list.prev == book.ring[k] && (book.tiles[k].list.prev != vmas <==> k > 0)
    {
      assert book.ring[k + 1] == book.tiles[k].list;
    }

    lemma JoinBounds(ts: seq<Tile>, k: nat, hi: nat)
      requires Tiling(ts, 0, hi) && k + 1 < |ts|
      ensures ts[k].start + ts[k].pages == ts[k + 1].start && ts[k + 1].start + ts[k + 1].pages <= hi
      ensures ts[k].pages > 0
    {
      TilingCut(ts, 0, hi, k + 1);
      assert ts[k].End() == ts[k + 1].start;
    }

    lemma JoinedView(ts: seq<Tile>, k: nat, hi: nat)
      requires Tiling(ts, 0, hi) && k + 1 < |ts|
      ensures var t := Tile(ts[k].start, ts[k].pages + ts[k + 1].pages, true);
        (ts[..k + 1] + ts[k + 2..])[k := t][k := t.(used := false)] == Joined(ts, k)
    {
    }

    /** The first half of `vma_free`: frees VMA `k`, looks up its neighbours, merges with the next one. */
    method FreeForward(vma: Vma, ghost k: nat, ghost hi: nat) returns (prev: Vma?)
      requires Consistent() && k < |book.tiles| == |book.view| && book.tiles[k] == vma && book.view[k].used
      requires Tiling(book.view, 0, hi) && hi <= 0x1_0000_0000
      modifies Repr
      ensures Consistent() && Repr == old(Repr)
      ensures prev == if k > 0 && k <= |old(book.tiles)| then old(book.tiles)[k - 1] else null
      ensures var ts := old(book.view); var freed := ts[k := ts[k].(used := false)];
        if k + 1 < |ts| && !ts[k + 1].used
        then book.view == Joined(freed, k) && book.tiles == old(book.tiles)[..k + 1] + old(book.tiles)[k + 2..]
        else book.view == freed && book.tiles == old(book.tiles)
    {
      hide *;
      ghost var ts := book.view;
      RightMerge(ts, k, hi);
      MarkFree(vma, k);
      NextLink(k);
      prev := null;
      var next: Vma? := null;
      if vma.list.prev != vmas {
        LinkOf(k - 1);
        Bounds(k - 1);
        prev := vma.list.prev.owner;
      }
      if vma.list.next != vmas {
        LinkOf(k + 1);
        Bounds(k + 1);
        next := vma.list.next.owner;
      }
      if next != null {
        var free := next.IsFree();
        if free {
          Merge(vma, k, hi);
        }
      }
    }

    /** The other half of `vma_free`: merges the free VMA `k` with the one before, if that is free. */
    method FreeBackward(prev: Vma?, ghost k: nat, ghost hi: nat)
      requires Consistent() && k < |book.tiles| == |book.view| && !book.view[k].used
      requires prev == if k > 0 then book.tiles[k - 1] else null
      requires Tiling(book.view, 0, hi) && hi <= 0x1_0000_0000
      modifies Repr
      ensures Consistent() && Repr == old(Repr)
      ensures var ts := old(book.view);
        if k > 0 && !ts[k - 1].used
        then book.view == Joined(ts, k - 1) && book.tiles == old(book.tiles)[..k] + old(book.tiles)[k + 1..]
        else book.view == ts && book.tiles == old(book.tiles)
    {
      hide *;
      if prev != null {
        Bounds(k - 1);
        var free := prev.IsFree();
        if free {
          Merge(prev, k - 1, hi);
        }
      }
    }

    /** `vma_free`: the used VMA `k` becomes free and merges with free neighbours. */
    method Free(vma: Vma, ghost k: nat)
      requires Valid() && k < |book.tiles| && book.tiles[k] == vma && book.view[k].used
      modifies Repr
      ensures Valid() && fresh(Repr - old(Repr))
      ensures book.view == Released(old(book).view, k)
      ensures old(book).Keeps(book, vma)
    {
      hide *;
      Opened();
      ghost var b0, ts := book, book.view;
      RightMerge(ts, k, Pages());
      var prev := FreeForward(vma, k, Pages());
      ghost var b1 := book;
      FreeBackward(prev, k, Pages());
      FreedBook(b0, b1, book, k, vma, Pages());
      ReleasedKeeps(ts, 0, Pages(), k);
      Closed();
    }

    /** What the two halves of `vma_free` come to. */
    lemma FreedBook(b0: Book, b1: Book, b2: Book, k: nat, v: Vma, hi: nat)
      requires k < |b0.tiles| == |b0.view| && b0.tiles[k] == v && b0.view[k].used && Tiling(b0.view, 0, hi)
      requires var ts := b0.view; var freed := ts[k := ts[k].(used := false)];
        if k + 1 < |ts| && !ts[k + 1].used
        then b1.view == Joined(freed, k) && b1.tiles == b0.tiles[..k + 1] + b0.tiles[k + 2..]
        else b1.view == freed && b1.tiles == b0.tiles
      requires if k > 0 && !b1.view[k - 1].used
        then b2.view == Joined(b1.view, k - 1) && b2.tiles == b1.tiles[..k] + b1.tiles[k + 1..]
        else b2.view == b1.view && b2.tiles == b1.tiles
      ensures b2.view == Released(b0.view, k) && b0.Keeps(b2, v)
    {
      hide *;
      var ts := b0.view;
      RightMerge(ts, k, hi);
      MergedIs(b0.tiles, b1.tiles, b2.tiles, k, k > 0 && !ts[k - 1].used, k + 1 < |ts| && !ts[k + 1].used);
      ReleasedBook(b0, b2, k, v);
    }

    /** The end of `vma_allocator_init`. */
    method CoverAll(pages: nat)
      requires Consistent() && BaseOk() && book.tiles == [] && book.view == [] && pages == Pages()
      modifies Repr
      ensures Valid() && fresh(Repr - old(Repr)) && book.view == [Tile(0, pages, false)]
    {
      hide *;
      ReadyForFirst();
      SomePages();
      AddFree(vmas, 0, pages, 0, null);
      FirstTile();
    }

    lemma BaseFrom(lo: nat, hi: nat)
      requires loAddress == lo && hiAddress == hi
      requires lo % 4096 == 0 && hi % 4096 == 0 && lo < hi && hi - lo <= 0x1000_0000_0000
      ensures BaseOk() && Pages() == (hi - lo) / 4096
    {
    }

    lemma SomePages()
      requires BaseOk()
      ensures 1 <= Pages() <= 0x1_0000_0000
    {
    }

    lemma ReadyForFirst()
      requires Consistent() && book.tiles == [] && book.view == []
      ensures |book.ring| == 1 && book.ring[0] == vmas && FitsAt(book.view, 0, 0)
    {
    }

    lemma FirstTile()
      requires Consistent() && BaseOk() && book.view == [Tile(0, Pages(), false)]
      ensures Valid()
    {
    }

    /** The tiles halfway through `vma_free`, after the merge with the successor. */
    lemma RightMerge(ts: seq<Tile>, k: nat, hi: nat)
      requires Tiling(ts, 0, hi) && k < |ts| && ts[k].used
      ensures var freed := ts[k := ts[k].(used := false)];
        var merge := k + 1 < |ts| && !ts[k + 1].used;
        var right := if merge then Joined(freed, k) else freed;
        && Tiling(freed, 0, hi) && Tiling(right, 0, hi) && |right| == (if merge then |ts| - 1 else |ts|)
        && !right[k].used && (k > 0 ==> right[k - 1] == ts[k - 1])
        && Released(ts, k) == if k > 0 && !ts[k - 1].used then Joined(right, k - 1) else right
    {
      FreedKeeps(ts, 0, hi, k);
      if k + 1 < |ts| && !ts[k + 1].used {
        JoinedKeeps(Freed(ts, k), 0, hi, k);
      }
    }

    /** What is left of a list of VMAs when number `k` swallows the next one and then goes into the one before. */
    static ghost function Merged<T>(s: seq<T>, k: nat, left: bool, right: bool): seq<T>
      requires k < |s| && (left ==> k > 0) && (right ==> k + 1 < |s|)
    {
      var r := if right then s[..k + 1] + s[k + 2..] else s;
      if left then r[..k] + r[k + 1..] else r
    }

    /** With the right neighbour gone, what stands before and after element `k`. */
    lemma MergedRight<T>(s: seq<T>, k: nat, right: bool, r: seq<T>)
      requires k < |s| && (right ==> k + 1 < |s|) && r == if right then s[..k + 1] + s[k + 2..] else s
      ensures |r| > k && r[..k] == s[..k] && r[k] == s[k] && r[k + 1..] == s[if right then k + 2 else k + 1..]
    {
    }

    lemma MergedSplice<T>(s: seq<T>, k: nat, left: bool, right: bool)
      requires k < |s| && (left ==> k > 0) && (right ==> k + 1 < |s|)
      ensures var i, j := if left then k - 1 else k, if right then k + 2 else k + 1;
        Merged(s, k, left, right) == s[..i] + [s[i]] + s[j..]
    {
      var r := if right then s[..k + 1] + s[k + 2..] else s;
      MergedRight(s, k, right, r);
      if left {
        assert s[..k] == s[..k - 1] + [s[k - 1]];
      } else {
        assert r == r[..k] + [r[k]] + r[k + 1..];
      }
    }

    lemma MergedIs<T>(s: seq<T>, r: seq<T>, t: seq<T>, k: nat, left: bool, right: bool)
      requires k < |s| && (left ==> k > 0) && (right ==> k + 1 < |s|)
      requires r == if right then s[..k + 1] + s[k + 2..] else s
      requires t == if left then r[..k] + r[k + 1..] else r
      ensures t == Merged(s, k, left, right)
    {
    }

    lemma ReleasedBook(b: Book, b': Book, k: nat, v: Vma)
      requires k < |b.tiles| == |b.view| && b.tiles[k] == v && b'.view == Released(b.view, k)
      requires b'.tiles == Merged(b.tiles, k, k > 0 && !b.view[k - 1].used, k + 1 < |b.view| && !b.view[k + 1].used)
      ensures b.Keeps(b', v)
    {
      hide *;
      var i, j, t := ReleasedSplice(b.view, k);
      MergedSplice(b.tiles, k, k > 0 && !b.view[k - 1].used, k + 1 < |b.view| && !b.view[k + 1].used);
      SplicedAt(b, b', i, j, k, t, v);
    }

    lemma SplicedAt(b: Book, b': Book, i: nat, j: nat, k: nat, t: Tile, v: Vma)
      requires i <= k < j <= |b.tiles| == |b.view| && b.tiles[k] == v && !t.used
      requires b'.tiles == b.tiles[..i] + [b.tiles[i]] + b.tiles[j..] && b'.view == b.view[..i] + [t] + b.view[j..]
      requires forall m :: i <= m < j && b.view[m].used ==> m == k
      ensures b.Keeps(b', v)
    {
      b.SplicedKeeps(b', i, j, [b.tiles[i]], [t], v);
    }

    // ----- aligned allocation

    /** VMA `v` covers `[a, b)`, carved out of free tile `k` of the old book, and nothing else has changed. */
    ghost predicate CarvedFrom(b0: Book, k: nat, a: nat, b: nat, v: Vma)
      reads this
    {
      && Carvable(b0.view, k, a, b) && book.view == Carve(b0.view, k, a, b)
      && b0.Keeps(book, null) && Covers(v, CarvedIndex(b0.view, k, a))
    }

    /** Allocating pages and freeing them again, as `vma_alloc_aligned` does. */
    method GiveBack(vma: Vma, ghost b0: Book, ghost k: nat, ghost a: nat, ghost b: nat)
      requires Valid() && CarvedFrom(b0, k, a, b, vma) && k < |b0.tiles| && vma == b0.tiles[k]
      requires b0.Ok(vmas) && Tiling(b0.view, 0, Pages()) && Coalesced(b0.view)
      modifies Repr
      ensures Valid() && fresh(Repr - old(Repr)) && book.view == b0.view && b0.Keeps(book, null)
    {
      hide *;
      GiveBackFacts(vma, b0, k, a, b);
      ghost var b1 := book;
      Free(vma, CarvedIndex(b0.view, k, a));
      KeepsBoth(b0, b1, book, k, vma);
    }

    lemma GiveBackFacts(vma: Vma, b0: Book, k: nat, a: nat, b: nat)
      requires Valid() && CarvedFrom(b0, k, a, b, vma) && k < |b0.tiles| && vma == b0.tiles[k]
      requires b0.Ok(vmas) && Tiling(b0.view, 0, Pages()) && Coalesced(b0.view)
      ensures k < |b0.view| == |b0.tiles| && !b0.view[k].used && b0.Keeps(book, null)
      ensures var c := CarvedIndex(b0.view, k, a);
        && c < |book.tiles| == |book.view| && book.tiles[c] == vma && book.view[c].used
        && Released(book.view, c) == b0.view
    {
      ReleasedCarve(b0.view, 0, Pages(), k, a, b);
    }

    lemma KeepsBoth(b0: Book, b1: Book, b2: Book, k: nat, v: Vma)
      requires b0.Ok(vmas) && k < |b0.tiles| == |b0.view| && v == b0.tiles[k] && !b0.view[k].used
      requires b0.Keeps(b1, null) && b1.Keeps(b2, v)
      ensures b0.Keeps(b2, null)
    {
      b0.OtherPlace(k);
      forall i | 0 <= i < |b0.tiles| && i < |b0.view| && b0.view[i].used
        ensures b2.HasTile(b0.tiles[i], b0.view[i])
      {
        assert b1.HasTile(b0.tiles[i], b0.view[i]);
      }
    }

    lemma KeepsTwice(b0: Book, b1: Book, b2: Book)
      requires b0.Keeps(b1, null) && b1.Keeps(b2, null)
      ensures b0.Keeps(b2, null)
    {
      forall i | 0 <= i < |b0.tiles| && i < |b0.view| && b0.view[i].used
        ensures b2.HasTile(b0.tiles[i], b0.view[i])
      {
        assert b1.HasTile(b0.tiles[i], b0.view[i]);
      }
    }

    /** The pages of the first `align_bits`-aligned address from `start` on, when `start` begins a padded range. */
    lemma AlignedInside(start: nat, pages: nat, alignBits: nat) returns (a: nat)
      requires loAddress % 4096 == 0 && alignBits >= 12 && pages > 0
      ensures var addr := AlignUp(loAddress + start * 4096, alignBits);
        addr == loAddress + a * 4096 && IsAligned(addr, alignBits)
      ensures start <= a && a + pages <= start + pages + Pow2(alignBits - 12)
    {
      var from := loAddress + start * 4096;
      AlignUpIs(from, alignBits);
      var addr: nat := AlignUp(from, alignBits);
      AlignedToFewer(addr, alignBits, 12);
      assert Pow2(12) == 4096 && addr % 4096 == 0;
      Pow2Sum(12, alignBits - 12);
      hide *;
      a := PagesUpTo(start, addr, Pow2(alignBits - 12));
    }

    lemma PagesUpTo(start: nat, addr: nat, units: nat) returns (a: nat)
      requires loAddress % 4096 == 0 && addr % 4096 == 0
      requires loAddress + start * 4096 <= addr < loAddress + start * 4096 + 4096 * units
      ensures addr == loAddress + a * 4096 && start <= a < start + units
    {
      a := (addr - loAddress) / 4096;
    }

    lemma ValidBook()
      requires Valid()
      ensures book.Ok(vmas) && Tiling(book.view, 0, Pages()) && Coalesced(book.view) && |book.tiles| == |book.view|
    {
    }

    lemma DidCarve(b0: Book, k: nat, numPages: nat, v: Vma)
      requires b0.Ok(vmas) && BestFit(b0.view, numPages, k) && k < |b0.tiles| && k < |book.tiles|
      requires book.tiles[k] == v && numPages > 0 && b0.Keeps(book, null) && v == b0.tiles[k]
      requires book.view == Carve(b0.view, k, b0.view[k].start, b0.view[k].start + numPages)
      ensures CarvedFrom(b0, k, b0.view[k].start, b0.view[k].start + numPages, v)
      ensures k < |b0.view| && k < |book.view| && book.view[k].start == b0.view[k].start
    {
    }

    lemma DidCarveByAddr(b0: Book, k: nat, a: nat, b: nat, v: Vma)
      requires Carvable(b0.view, k, a, b) && book.view == Carve(b0.view, k, a, b)
      requires b0.Keeps(book, null) && Covers(v, CarvedIndex(b0.view, k, a))
      ensures CarvedFrom(b0, k, a, b, v)
    {
    }

    lemma NothingFitsMore(ts: seq<Tile>, pages: nat, more: nat)
      requires pages <= more
      ensures (forall j: nat :: !Fits(ts, pages, j)) ==> forall j: nat :: !Fits(ts, more, j)
    {
      forall j: nat | Fits(ts, more, j)
        ensures Fits(ts, pages, j)
      {
      }
    }

    lemma KeepsSelf()
      requires Consistent()
      ensures book.Keeps(book, null)
    {
    }

    lemma InsideFit(ts: seq<Tile>, k: nat, padded: nat, a: nat, b: nat)
      requires BestFit(ts, padded, k) && ts[k].start <= a < b <= ts[k].start + padded
      requires Valid() && ts == book.view
      ensures AllFree(ts, a, b)
      ensures loAddress + a * 4096 < hiAddress && (loAddress + a * 4096) % 4096 == 0
    {
      ValidBook();
      assert Carvable(ts, k, a, b);
      TilingCut(ts, 0, Pages(), k);
      PageIsInside(a);
      hide *;
      CarvableIffAllFree(ts, 0, Pages(), a, b);
    }

    lemma PageIsInside(a: nat)
      requires BaseOk() && a < Pages()
      ensures loAddress + a * 4096 < hiAddress && (loAddress + a * 4096) % 4096 == 0
    {
    }

    /** Where the aligned range lies in the free tile that the padded allocation came from. */
    lemma AlignedPlace(ts: seq<Tile>, k: nat, start: nat, pages: nat, alignBits: nat) returns (a: nat)
      requires Valid() && ts == book.view && alignBits >= 12 && pages > 0
      requires BestFit(ts, pages + Pow2(alignBits - 12), k) && k < |ts| && start == loAddress + ts[k].start * 4096
      ensures var addr := AlignUp(start, alignBits);
        && addr == loAddress + a * 4096 && IsAligned(addr, alignBits) && addr < hiAddress
        && addr % 4096 == 0
      ensures AllFree(ts, a, a + pages)
    {
      a := AlignedInside(ts[k].start, pages, alignBits);
      InsideFit(ts, k, pages + Pow2(alignBits - 12), a, a + pages);
    }

    /** The middle of `vma_alloc_aligned`: allocates `padded` pages, notes their address and frees them. */
    method TryPadded(padded: nat, metadata: bool) returns (r: Outcome, addr: nat, ghost k: nat)
      requires Valid() && 0 < padded <= 0x400_0000
      modifies Repr
      ensures Valid() && fresh(Repr - old(Repr)) && book.view == old(book).view && old(book).Keeps(book, null)
      ensures r != NoMetadata && (r == NoSpace <==> NoFit(old(book).view, padded))
      ensures r != NoSpace ==>
        BestFit(book.view, padded, k) && k < |book.view| && (r == Halted <==> !metadata && padded < book.view[k].pages)
      ensures r.Allocated? ==> addr == loAddress + book.view[k].start * 4096
    {
      hide *;
      Opened();
      ValidBook();
      KeepsSelf();
      ghost var b := book;
      addr := 0;
      NoFitIs(b.view, padded);
      r, k := Alloc(padded, metadata);
      if !r.Allocated? {
        return;
      }
      Opened();
      DidCarve(b, k, padded, r.vma);
      Bounds(k);
      ghost var start := b.view[k].start;
      var from, _ := r.vma.ReadBounds();
      addr := from;
      GiveBack(r.vma, b, k, start, start + padded);
    }

    /** What is left of tile `k` before `a` or from `b` on needs metadata that is not there. */
    static ghost predicate LeftoversFail(ts: seq<Tile>, k: nat, a: nat, b: nat, metadataLo: bool, metadataHi: bool) {
      k < |ts| && ((ts[k].start < a && !metadataLo) || (b < ts[k].End() && !metadataHi))
    }

    static lemma LeftoversAre(ts: seq<Tile>, k: nat, a: nat, b: nat, metadataLo: bool, metadataHi: bool)
      requires Carvable(ts, k, a, b)
      ensures LeftoversFail(ts, k, a, b, metadataLo, metadataHi) <==>
        (ts[k].start < a && !metadataLo) || (b < ts[k].start + ts[k].pages && !metadataHi)
    {
    }

    /** The end of `vma_alloc_aligned`: the assertion fails exactly for want of metadata. */
    method AllocFree(addr: nat, numPages: nat, metadataLo: bool, metadataHi: bool, ghost a: nat)
      returns (r: Outcome, ghost k: nat)
      requires Valid() && addr == loAddress + a * 4096 && addr < hiAddress && addr % 4096 == 0 && numPages > 0
      requires AllFree(book.view, a, a + numPages)
      modifies Repr
      ensures Valid() && fresh(Repr - old(Repr)) && (r.Allocated? || r == Halted)
      ensures Carvable(old(book).view, k, a, a + numPages)
      ensures r == Halted <==> LeftoversFail(old(book).view, k, a, a + numPages, metadataLo, metadataHi)
      ensures r.Allocated? ==> CarvedFrom(old(book), k, a, a + numPages, r.vma)
    {
      hide *;
      ghost var b := book;
      r, k := AllocByAddr(addr, addr + numPages * 4096, metadataLo, metadataHi);
      LeftoversAre(b.view, k, a, a + numPages, metadataLo, metadataHi);
      if !r.Allocated? {
        return Halted, k;
      }
      DidCarveByAddr(b, k, a, a + numPages, r.vma);
    }

    lemma SameView(b0: Book, b1: Book, k: nat, a: nat, b: nat, v: Vma)
      requires CarvedFrom(b1, k, a, b, v) && b0.view == b1.view && b0.Keeps(b1, null)
      ensures CarvedFrom(b0, k, a, b, v)
    {
      KeepsTwice(b0, b1, book);
    }

    lemma BothKept(b0: Book, b1: Book)
      requires b0.Keeps(b1, null)
      ensures book.view == b1.view && b1.Keeps(book, null) ==> b0.Keeps(book, null)
    {
      if b1.Keeps(book, null) {
        KeepsTwice(b0, b1, book);
      }
    }

    /** Page `a` is the first aligned one from page `start` on. */
    ghost predicate AlignedFrom(start: nat, alignBits: nat, a: nat) {
      loAddress + a * 4096 == AlignUp(loAddress + start * 4096, alignBits)
    }

    /** The padded allocation, or the last one of the pages from `a` on, needs metadata that is not there. */
    static ghost predicate SecondFails(ts: seq<Tile>, k: nat, a: nat, numPages: nat, padded: nat, metadata: seq<bool>) {
      && |metadata| == 4 && k < |ts|
      && ((padded < ts[k].pages && !metadata[1]) || LeftoversFail(ts, k, a, a + numPages, metadata[2], metadata[3]))
    }

    static lemma SecondIs(ts: seq<Tile>, k: nat, a: nat, numPages: nat, padded: nat, metadata: seq<bool>)
      requires |metadata| == 4 && k < |ts|
      ensures SecondFails(ts, k, a, numPages, padded, metadata) <==>
        (padded < ts[k].pages && !metadata[1]) || LeftoversFail(ts, k, a, a + numPages, metadata[2], metadata[3])
    {
    }

    /** Pages can be carved out of one tile only. */
    lemma OnePlace(ts: seq<Tile>, hi: nat, k: nat, j: nat, padded: nat, a: nat, b: nat)
      requires Tiling(ts, 0, hi) && Carvable(ts, j, a, b) && BestFit(ts, padded, k) && k < |ts|
      requires ts[k].start <= a && b <= ts[k].start + padded
      ensures j == k
    {
      if j != k {
        TilingOrder(ts, 0, hi, if j < k then j else k, if j < k then k else j);
      }
    }

    /**
      The second half of `vma_alloc_aligned`: allocates inside free tile `k`, which has room to spare, from the first
      aligned page `a` of it on.
     */
    method AllocPadded(numPages: nat, alignBits: nat, metadata: seq<bool>)
      returns (r: Outcome, ghost k: nat, ghost a: nat)
      requires Valid() && 0 < numPages <= 0x400_0000 && 12 <= alignBits && |metadata| == 4
      modifies Repr
      ensures Valid() && fresh(Repr - old(Repr)) && r != NoMetadata
      ensures r == NoSpace ==> book.view == old(book).view && old(book).Keeps(book, null)
      ensures var padded, ts := numPages + Pow2(alignBits - 12), old(book).view;
        && (r == NoSpace <==> padded <= 0x400_0000 && NoFit(ts, padded))
        && (padded <= 0x400_0000 && r != NoSpace ==>
              BestFit(ts, padded, k) && k < |ts| && AlignedFrom(ts[k].start, alignBits, a))
        && (r == Halted <==>
              padded > 0x400_0000 || (!NoFit(ts, padded) && SecondFails(ts, k, a, numPages, padded, metadata)))
      ensures r.Allocated? ==>
        IsAligned(loAddress + a * 4096, alignBits) && CarvedFrom(old(book), k, a, a + numPages, r.vma)
    {
      hide *;
      ghost var b0 := book;
      k, a := 0, 0;
      var padded := numPages + Pow2(alignBits - 12);
      if padded > 0x400_0000 {
        return Halted, k, a;
      }
      var start;
      r, start, k := TryPadded(padded, metadata[1]);
      if r == NoSpace {
        return;
      }
      ghost var from := b0.view[k].start;
      a := AlignedPlace(book.view, k, loAddress + from * 4096, numPages, alignBits);
      AlignedThere(b0.view, k, from, numPages, alignBits, a);
      SecondIs(b0.view, k, a, numPages, padded, metadata);
      NoFitIs(b0.view, padded);
      SomeFitIn(b0.view, padded, k);
      if r == Halted {
        return;
      }
      var addr := AlignUp(start, alignBits);
      ghost var b1, j := book, 0;
      Opened();
      r, j := AllocFree(addr, numPages, metadata[2], metadata[3], a);
      OnePlace(b1.view, Pages(), k, j, padded, a, a + numPages);
      if r.Allocated? {
        SameView(b0, b1, k, a, a + numPages, r.vma);
      }
    }

    static lemma SomeFitIn(ts: seq<Tile>, pages: nat, k: nat)
      requires BestFit(ts, pages, k)
      ensures !NoFit(ts, pages)
    {
    }

    lemma AlignedThere(ts: seq<Tile>, k: nat, from: nat, pages: nat, alignBits: nat, a: nat)
      requires alignBits >= 12 && pages > 0 && loAddress % 4096 == 0
      requires loAddress + a * 4096 == AlignUp(loAddress + from * 4096, alignBits)
      ensures AlignedFrom(from, alignBits, a) && from <= a && a + pages <= from + pages + Pow2(alignBits - 12)
    {
      var b := AlignedInside(from, pages, alignBits);
    }

    /** The first call of `vma_alloc` takes tile `first`, and has the metadata for it. */
    static ghost predicate FirstTry(ts: seq<Tile>, numPages: nat, first: nat, metadata: bool) {
      BestFit(ts, numPages, first) && first < |ts| && (ts[first].pages == numPages || metadata)
    }

    static lemma FirstTryIs(ts: seq<Tile>, numPages: nat, first: nat, metadata: bool)
      ensures FirstTry(ts, numPages, first, metadata) <==>
        BestFit(ts, numPages, first) && first < |ts| && (ts[first].pages == numPages || metadata)
      ensures BestFit(ts, numPages, first) && first < |ts| ==> ts[first].pages >= numPages && !NoFit(ts, numPages)
    {
    }

    /** What the first call of `vma_alloc` gives is not aligned. */
    ghost predicate Retries(ts: seq<Tile>, numPages: nat, first: nat, alignBits: nat, metadata: bool) {
      FirstTry(ts, numPages, first, metadata) && !IsAligned(loAddress + ts[first].start * 4096, alignBits)
    }

    lemma RetriesIs(ts: seq<Tile>, numPages: nat, first: nat, alignBits: nat, metadata: bool)
      ensures Retries(ts, numPages, first, alignBits, metadata) ==>
        FirstTry(ts, numPages, first, metadata) && first < |ts|
      ensures first < |ts| ==>
        (Retries(ts, numPages, first, alignBits, metadata) <==>
         FirstTry(ts, numPages, first, metadata) && !IsAligned(loAddress + ts[first].start * 4096, alignBits))
    {
    }

    /** Nothing fits, or what fits is not aligned and with padding nothing fits. */
    ghost predicate LacksSpace(ts: seq<Tile>, numPages: nat, alignBits: nat, first: nat, metadata: seq<bool>)
      requires alignBits >= 12
    {
      var padded := numPages + Pow2(alignBits - 12);
      || NoFit(ts, numPages)
      || (padded <= 0x400_0000 && NoFit(ts, padded) && |metadata| == 4
          && Retries(ts, numPages, first, alignBits, metadata[0]))
    }

    /** Metadata is needed and not there, or the padded size is over the bound. */
    ghost predicate LacksMetadata(ts: seq<Tile>, numPages: nat, alignBits: nat, first: nat, k: nat, a: nat,
                                  metadata: seq<bool>)
      requires alignBits >= 12
    {
      var padded := numPages + Pow2(alignBits - 12);
      && |metadata| == 4 && first < |ts| && !NoFit(ts, numPages)
      && ((numPages < ts[first].pages && !metadata[0])
          || (Retries(ts, numPages, first, alignBits, metadata[0])
              && (padded > 0x400_0000 || (!NoFit(ts, padded) && SecondFails(ts, k, a, numPages, padded, metadata)))))
    }

    /** Tile `first` is the first choice, `k` the choice with padding, and `a` the first aligned page in it. */
    ghost predicate Choices(ts: seq<Tile>, numPages: nat, alignBits: nat, first: nat, k: nat, a: nat,
                            metadata: seq<bool>)
      requires alignBits >= 12
    {
      var padded := numPages + Pow2(alignBits - 12);
      && (!NoFit(ts, numPages) ==> BestFit(ts, numPages, first))
      && (|metadata| == 4 && Retries(ts, numPages, first, alignBits, metadata[0]) && padded <= 0x400_0000
          && !NoFit(ts, padded) ==>
            BestFit(ts, padded, k) && k < |ts| && AlignedFrom(ts[k].start, alignBits, a))
    }

    lemma LacksAre(ts: seq<Tile>, numPages: nat, alignBits: nat, first: nat, k: nat, a: nat, metadata: seq<bool>)
      requires alignBits >= 12 && |metadata| == 4 && (!NoFit(ts, numPages) ==> first < |ts|)
      ensures var padded := numPages + Pow2(alignBits - 12);
        var retries := Retries(ts, numPages, first, alignBits, metadata[0]);
        && (LacksSpace(ts, numPages, alignBits, first, metadata) <==>
              NoFit(ts, numPages) || (padded <= 0x400_0000 && NoFit(ts, padded) && retries))
        && (LacksMetadata(ts, numPages, alignBits, first, k, a, metadata) <==>
              !NoFit(ts, numPages) &&
              ((numPages < ts[first].pages && !metadata[0])
               || (retries && (padded > 0x400_0000
                               || (!NoFit(ts, padded) && SecondFails(ts, k, a, numPages, padded, metadata))))))
        && (Choices(ts, numPages, alignBits, first, k, a, metadata) <==>
              (!NoFit(ts, numPages) ==> BestFit(ts, numPages, first))
              && (retries && padded <= 0x400_0000 && !NoFit(ts, padded) ==>
                    BestFit(ts, padded, k) && k < |ts| && AlignedFrom(ts[k].start, alignBits, a)))
    {
      hide Retries, NoFit, SecondFails, BestFit, AlignedFrom, Pow2;
    }

    /**
      `vma_alloc_aligned`. `metadata[0]` and `metadata[1]` are for the two calls of `vma_alloc`, the
      others for `vma_alloc_by_addr`; the kernel halts where an assertion of the source fails. `first` is the
      tile that the first call takes, `k` the tile that the pages from `a` on are taken from at last.
     */
    method AllocAligned(numPages: nat, alignBits: nat, metadata: seq<bool>)
      returns (r: Outcome, ghost k: nat, ghost a: nat, ghost first: nat)
      requires Valid() && 0 < numPages <= 0x400_0000 && 12 <= alignBits && |metadata| == 4
      modifies Repr
      ensures Valid() && fresh(Repr - old(Repr)) && r != NoMetadata
      ensures r == NoSpace ==> book.view == old(book).view && old(book).Keeps(book, null)
      ensures var ts := old(book).view;
        && Choices(ts, numPages, alignBits, first, k, a, metadata)
        && (r == NoSpace <==> LacksSpace(ts, numPages, alignBits, first, metadata))
        && (r == Halted <==> LacksMetadata(ts, numPages, alignBits, first, k, a, metadata))
      ensures r.Allocated? ==>
        IsAligned(loAddress + a * 4096, alignBits) && CarvedFrom(old(book), k, a, a + numPages, r.vma)
    {
      hide *;
      Opened();
      ValidBook();
      ghost var b0 := book;
      KeepsSelf();
      NothingFitsMore(b0.view, numPages, numPages + Pow2(alignBits - 12));
      a, first := 0, 0;
      r, k := Alloc(numPages, metadata[0]);
      first := k;
      NoFitIs(b0.view, numPages);
      FirstTryIs(b0.view, numPages, k, metadata[0]);
      RetriesIs(b0.view, numPages, k, alignBits, metadata[0]);
      LacksAre(b0.view, numPages, alignBits, first, k, a, metadata);
      if !r.Allocated? {
        return;
      }
      Opened();
      DidCarve(b0, k, numPages, r.vma);
      Bounds(k);
      a := b0.view[k].start;
      var addr, _ := r.vma.ReadBounds();
      if IsAligned(addr, alignBits) {
        LacksAre(b0.view, numPages, alignBits, first, k, a, metadata);
        return;
      }
      GiveBack(r.vma, b0, k, a, a + numPages);
      ghost var b1 := book;
      r, k, a := AllocPadded(numPages, alignBits, metadata);
      LacksAre(b0.view, numPages, alignBits, first, k, a, metadata);
      if r.Allocated? {
        SameView(b0, b1, k, a, a + numPages, r.vma);
      } else {
        BothKept(b0, b1);
      }
    }

    /** With all metadata at hand and a padded size within the bound, no assertion fails. */
    lemma NeverHalts(ts: seq<Tile>, numPages: nat, alignBits: nat, first: nat, k: nat, a: nat, metadata: seq<bool>)
      requires alignBits >= 12 && numPages + Pow2(alignBits - 12) <= 0x400_0000
      requires forall i :: 0 <= i < |metadata| ==> metadata[i]
      ensures !LacksMetadata(ts, numPages, alignBits, first, k, a, metadata)
    {
    }

    /** Nor does it lack space where so many pages in a row are free as the padded size has. */
    lemma EnoughSpace(ts: seq<Tile>, hi: nat, numPages: nat, alignBits: nat, first: nat, metadata: seq<bool>, p: nat)
      requires Tiling(ts, 0, hi) && Coalesced(ts) && alignBits >= 12
      requires FreeRun(ts, p, numPages + Pow2(alignBits - 12))
      ensures !LacksSpace(ts, numPages, alignBits, first, metadata)
    {
      var padded := numPages + Pow2(alignBits - 12);
      FitsIffFreeRun(ts, 0, hi, padded);
      var k: nat :| Fits(ts, padded, k);
      assert Fits(ts, numPages, k);
    }
  }

  /** `vma_allocator_init`: one free VMA covers the whole range. */
  method InitAllocator(lo: nat, hi: nat, metadata: bool) returns (allocator: VmaAllocator?)
    requires lo % 4096 == 0 && hi % 4096 == 0 && lo < hi && hi - lo <= 0x1000_0000_0000
    ensures allocator == null <==> !metadata
    ensures allocator != null ==>
      && fresh(allocator) && fresh(allocator.Repr) && allocator.Valid()
      && allocator.loAddress == lo && allocator.hiAddress == hi
      && allocator.book.view == [Tile(0, (hi - lo) / 4096, false)]
  {
    if !metadata {
      return null;
    }
    hide *;
    allocator := new VmaAllocator(lo, hi);
    allocator.BaseFrom(lo, hi);
    allocator.CoverAll((hi - lo) / 4096);
  }
}
