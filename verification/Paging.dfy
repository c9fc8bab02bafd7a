/** `arch/riscv64/paging.c`: mapping and unmapping pages in the tables that the hardware walks. */
module Paging {
  import opened PhysicalMemory
  import opened PhysicalAlloc
  import opened Pte
  import opened PageTree

  /** `enum page_permissions`. */
  datatype Permissions = KRO | KRW | KRX | URO | URW | URX

  datatype MapResult = Mapped | OutOfMemory | Halted

  /** The entry that points to the table in frame `f`. */
  function PointerTo(f: Frame): (e: Entry)
    ensures e.Pointer() && !e.Leaf() && e.ppn == f && !e.global && e.rsvd1 == 0
  {
    Entry(true, false, false, false, false, false, false, false, 0, f, 0)
  }

  const NO_ENTRY := Entry(false, false, false, false, false, false, false, false, 0, 0, 0)

  /** The entry that maps frame `ppn` with the permissions. */
  function LeafFor(ppn: Frame, perms: Permissions): (e: Entry)
    ensures e.Leaf() && !e.Pointer() && e.ppn == ppn
    ensures e.valid && e.readable && e.accessed && e.dirty && e.rsvd1 == 0 && e.rsvd0 == 0
    ensures e.user <==> perms in {URO, URW, URX}
    ensures e.global <==> !e.user
    ensures e.writable <==> perms in {KRW, URW}
    ensures e.executable <==> perms in {KRX, URX}
  {
    var e := Entry(true, true, false, false, false, false, true, true, 0, ppn, 0);
    match perms
    case KRO => e.(global := true)
    case KRW => e.(writable := true, global := true)
    case KRX => e.(executable := true, global := true)
    case URO => e.(user := true)
    case URW => e.(writable := true, user := true)
    case URX => e.(executable := true, user := true)
  }

  lemma BecomesGrown(t: Tree, m0: Memory, m1: Memory, m2: Memory, m3: Memory, root: Frame, p: seq<nat>, i: nat,
                     f: Frame,
                     free: set<Frame>)
    requires t.Ok(m0, root) && MemoryOk(m0) && MemoryOk(m1) && MemoryOk(m2) && p in t.at && |p| < 2 && i < 512
    requires !t.SlotOf(m0, p, i).valid && f in m0 && f in free && t.owner.Keys !! free
    requires SameOutside(m0, m1, free) && SameOutside(m1, m2, {f}) && t.at[p] in m2
    requires forall j :: 0 <= j < 512 ==> m2[f][j] == 0
    requires m3 == Stored(m2, t.at[p], i, Encode(PointerTo(f)))
    ensures t.Grown(m0, m3, p, i, f)
  {
    assert t.NodeOk(m0, p);
    DecodeEncode(PointerTo(f));
    ZeroIsInvalid();
  }

  class PageTables {
    const ram: Ram
    const allocator: Allocator
    var root: Frame
    ghost var tree: Tree

    /** The tables whose root is one empty frame. */
    constructor (allocator: Allocator, root: Frame)
      requires allocator.Valid() && root in allocator.ram.frames && root !in allocator.Free()
      requires forall i :: 0 <= i < 512 ==> allocator.ram.frames[root][i] == 0
      ensures Valid() && this.allocator == allocator && this.root == root
      ensures forall key :: IsKey(key) && |key| == 3 ==> Sees(key) == Fault
    {
      this.allocator, ram, this.root := allocator, allocator.ram, root;
      tree := Tree(map[[] := root], map[root := []]);
      ZeroIsInvalid();
    }

    ghost predicate Valid()
      reads this, ram, allocator, allocator.above, allocator.below
    {
      && allocator.ram == ram && allocator.Valid() && MemoryOk(ram.frames)
      && tree.Ok(ram.frames, root) && tree.owner.Keys !! allocator.Free()
    }

    /** What the hardware makes of the page with these indices. */
    ghost function Sees(key: seq<nat>): Translation
      requires IsKey(key) && |key| == 3
      reads this`root, ram
    {
      Translate(ram.frames, root, key)
    }

    /** The page with these indices is in no superpage. */
    ghost predicate Plain(key: seq<nat>)
      requires IsKey(key) && |key| == 3
      reads this`tree, ram
    {
      tree.Outside(ram.frames, key)
    }

    /** The frames that are free or hold a table. */
    ghost function Frames(): set<Frame>
      reads this, allocator.above, allocator.below
    {
      tree.owner.Keys + allocator.Free()
    }

    /** Installs the table, whose frame was taken, cleared and linked. */
    lemma Linked(m0: Memory, m1: Memory, m2: Memory, p: seq<nat>, i: nat, f: Frame, t: Tree, free: set<Frame>)
      requires t.Ok(m0, root) && MemoryOk(m0) && MemoryOk(m1) && MemoryOk(m2) && p in t.at && |p| < 2 && i < 512
      requires !t.SlotOf(m0, p, i).valid && f in m0 && f in free && t.owner.Keys !! free
      requires SameOutside(m0, m1, free) && SameOutside(m1, m2, {f}) && t.at[p] in m2
      requires forall j :: 0 <= j < 512 ==> m2[f][j] == 0
      requires ram.frames == Stored(m2, t.at[p], i, Encode(PointerTo(f)))
      ensures t.Grow(p, i, f).Ok(ram.frames, root) && p + [i] !in t.at
      ensures forall key :: IsKey(key) && |key| == 3 ==> Sees(key) == Translate(m0, root, key)
      ensures forall q, j: nat :: q in t.at && j < 512 && (q, j) != (p, i) ==>
        q in t.Grow(p, i, f).at && t.Grow(p, i, f).SlotOf(ram.frames, q, j) == t.SlotOf(m0, q, j)
      ensures forall key :: IsKey(key) && |key| == 3 && t.Outside(m0, key) ==> t.Grow(p, i, f).Outside(ram.frames, key)
      ensures p + [i] in t.Grow(p, i, f).at &&
        forall j: nat :: j < 512 ==> !t.Grow(p, i, f).SlotOf(ram.frames, p + [i], j).valid
    {
      forall q, j: nat | q in t.at && j < 512 && (q, j) != (p, i)
        ensures t.Grow(p, i, f).SlotOf(ram.frames, q, j) == t.SlotOf(m0, q, j)
      {
        BecomesGrown(t, m0, m1, m2, ram.frames, root, p, i, f, free);
        t.GrownNode(m0, ram.frames, root, p, i, f, p);
        t.GrownSlot(m0, ram.frames, root, p, i, f, q, j);
      }
      BecomesGrown(t, m0, m1, m2, ram.frames, root, p, i, f, free);
      t.GrownOk(m0, ram.frames, root, p, i, f);
      t.GrownNode(m0, ram.frames, root, p, i, f, p);
      forall key | IsKey(key) && |key| == 3
        ensures Sees(key) == Translate(m0, root, key)
      {
        t.GrownSame(m0, ram.frames, root, p, i, f, [], key);
      }
      forall key | IsKey(key) && |key| == 3 && t.Outside(m0, key)
        ensures t.Grow(p, i, f).Outside(ram.frames, key)
      {
        t.GrownOutside(m0, ram.frames, root, p, i, f, key);
      }
    }

    lemma TableAt(p: seq<nat>, i: nat)
      requires Valid() && p in tree.at && i < 512
      ensures tree.at[p] in ram.frames && tree.at[p] !in allocator.Free() && tree.at[p] in tree.owner
      ensures tree.SlotOf(ram.frames, p, i) == Decode(ram.frames[tree.at[p]][i])
      ensures |p| < 2 && tree.SlotOf(ram.frames, p, i).valid && !tree.SlotOf(ram.frames, p, i).Leaf() ==>
        p + [i] in tree.at && tree.at[p + [i]] == tree.SlotOf(ram.frames, p, i).ppn
      ensures !tree.SlotOf(ram.frames, p, i).valid ==> p + [i] !in tree.at
      ensures |p| == 2 && tree.SlotOf(ram.frames, p, i).valid ==> tree.SlotOf(ram.frames, p, i).Leaf()
    {
      assert tree.NodeOk(ram.frames, p) && tree.SlotOk(ram.frames, p, i);
    }

    lemma Opened()
      requires Valid()
      ensures allocator.ram == ram && allocator.Valid() && MemoryOk(ram.frames)
      ensures tree.Ok(ram.frames, root) && tree.owner.Keys !! allocator.Free()
      ensures Frames() == tree.owner.Keys + allocator.Free()
      ensures forall key :: IsKey(key) && |key| == 3 ==> Sees(key) == Translate(ram.frames, root, key)
      ensures forall key :: IsKey(key) && |key| == 3 ==> (Plain(key) <==> tree.Outside(ram.frames, key))
    {
    }

    lemma Same(m0: Memory, t: Tree, free: set<Frame>)
      requires allocator.ram == ram && allocator.Valid() && MemoryOk(m0) && t.Ok(m0, root) && t.owner.Keys !! free
      requires tree == t && ram.frames == m0 && allocator.Free() == free
      ensures Valid() && Frames() == t.owner.Keys + free
      ensures forall key :: IsKey(key) && |key| == 3 ==> Sees(key) == Translate(m0, root, key)
      ensures forall key :: IsKey(key) && |key| == 3 ==> (Plain(key) <==> t.Outside(m0, key))
    {
    }

    lemma NewIsThere(t: Tree, p: seq<nat>, i: nat, f: Frame)
      ensures t.Grow(p, i, f).at == t.at[p + [i] := f] && t.Grow(p, i, f).owner.Keys == t.owner.Keys + {f}
    {
    }

    lemma Closed(t: Tree, f: Frame, free: set<Frame>)
      requires allocator.ram == ram && allocator.Valid() && MemoryOk(ram.frames) && tree.Ok(ram.frames, root)
      requires tree.owner.Keys == t.owner.Keys + {f} && t.owner.Keys !! free && f in free
      requires allocator.Free() == free - {f}
      ensures Valid() && Frames() == t.owner.Keys + free
      ensures forall key :: IsKey(key) && |key| == 3 ==> (Plain(key) <==> tree.Outside(ram.frames, key))
    {
    }

    /** The frame `f`, just allocated, becomes a table and is linked at entry `index` of the table at `p`. */
    method LinkTable(table: Frame, index: nat, f: Frame, ghost p: seq<nat>, ghost m0: Memory, ghost free: set<Frame>)
      requires tree.Ok(m0, root) && MemoryOk(m0) && p in tree.at && |p| < 2 && tree.at[p] == table && index < 512
      requires !tree.SlotOf(m0, p, index).valid && f in m0 && f in free && tree.owner.Keys !! free
      requires allocator.ram == ram && allocator.Valid() && allocator.Free() == free - {f}
      requires SameOutside(m0, ram.frames, free) && table in tree.owner
      modifies this`tree, ram, allocator.above, allocator.below
      ensures tree == old(tree).Grow(p, index, f) && p + [index] !in old(tree).at
      ensures allocator.ram == ram && allocator.Valid() && MemoryOk(ram.frames) && tree.Ok(ram.frames, root)
      ensures allocator.Free() == free - {f}
      ensures forall key :: IsKey(key) && |key| == 3 ==> Sees(key) == Translate(m0, root, key)
      ensures forall q, j: nat :: q in old(tree).at && j < 512 && (q, j) != (p, index) ==>
        q in tree.at && tree.SlotOf(ram.frames, q, j) == old(tree).SlotOf(m0, q, j)
      ensures forall key :: IsKey(key) && |key| == 3 && old(tree).Outside(m0, key) ==> tree.Outside(ram.frames, key)
      ensures p + [index] in tree.at && forall j: nat :: j < 512 ==> !tree.SlotOf(ram.frames, p + [index], j).valid
    {
      hide *;
      TableIs(m0, p, free);
      ghost var m1 := ram.frames;
      ghost var m2 := Point(table, index, f);
      Linked(m0, m1, m2, p, index, f, tree, free);
      tree := tree.Grow(p, index, f);
    }

    /** `bzero_physical` of the new table, and the entry that points to it. */
    method Point(table: Frame, index: nat, f: Frame) returns (ghost m2: Memory)
      requires allocator.ram == ram && allocator.Valid() && f in ram.frames && table in ram.frames && f != table
      requires index < 512
      requires f !in allocator.Free() && table !in allocator.Free()
      modifies ram
      ensures allocator.Valid() && allocator.Free() == old(allocator.Free())
      ensures MemoryOk(old(ram.frames)) && MemoryOk(m2) && MemoryOk(ram.frames) && SameOutside(old(ram.frames), m2, {f})
      ensures table in m2 && f in m2 && forall j :: 0 <= j < 512 ==> m2[f][j] == 0
      ensures ram.frames == Stored(m2, table, index, Encode(PointerTo(f)))
    {
      hide *;
      allocator.MemoryIs();
      allocator.ZeroHeld(f);
      allocator.MemoryIs();
      m2 := ram.frames;
      StillHere(old(ram.frames), m2, f, table);
      allocator.WriteHeld(table, index, Encode(PointerTo(f)));
      allocator.MemoryIs();
    }

    lemma StillHere(m: Memory, m': Memory, f: Frame, table: Frame)
      requires SameOutside(m, m', {f}) && f in m && table in m
      ensures f in m' && table in m'
    {
    }

    lemma TableIs(m0: Memory, p: seq<nat>, free: set<Frame>)
      requires tree.Ok(m0, root) && p in tree.at && tree.owner.Keys !! free && SameOutside(m0, ram.frames, free)
      ensures tree.at[p] in m0 && tree.at[p] in ram.frames && tree.at[p] in tree.owner && tree.at[p] !in free
      ensures forall f :: f in free && f in m0 ==> f in ram.frames && f != tree.at[p]
    {
      assert tree.NodeOk(m0, p);
    }

    /** A new table below entry `index` of the table at `p`. */
    method NewTable(table: Frame, index: nat, ghost p: seq<nat>) returns (ok: bool, f: Frame)
      requires Valid() && p in tree.at && |p| < 2 && tree.at[p] == table && index < 512
      requires !tree.SlotOf(ram.frames, p, index).valid
      modifies this`tree, ram, allocator.above, allocator.below
      ensures Valid() && Frames() == old(Frames())
      ensures ok <==> old(allocator.Free()) != {}
      ensures !ok ==> allocator.Free() == {} && tree == old(tree)
      ensures ok ==> f in old(allocator.Free()) && allocator.Free() == old(allocator.Free()) - {f}
      ensures ok ==> p + [index] !in old(tree.at) && tree.at == old(tree.at)[p + [index] := f]
      ensures forall key :: IsKey(key) && |key| == 3 ==> Sees(key) == old(Sees(key)) && (old(Plain(key)) ==> Plain(key))
      ensures forall q, i: nat :: q in old(tree.at) && i < 512 && (q, i) != (p, index) ==>
        q in tree.at && tree.SlotOf(ram.frames, q, i) == old(tree.SlotOf(ram.frames, q, i))
      ensures ok ==> p + [index] in tree.at && forall i: nat :: i < 512 ==>
        !tree.SlotOf(ram.frames, p + [index], i).valid
    {
      hide *;
      Opened();
      ghost var m0, free, t := ram.frames, allocator.Free(), tree;
      TableAt(p, index);
      ok, f := allocator.Alloc(false);
      if !ok {
        Same(m0, t, free);
        return;
      }
      FrameIsHere(m0, ram.frames, free, f);
      LinkTable(table, index, f, p, m0, free);
      NewIsThere(t, p, index, f);
      Closed(t, f, free);
    }

    lemma FrameIsHere(m0: Memory, m1: Memory, free: set<Frame>, f: Frame)
      requires SameOutside(m0, m1, free) && f in m1
      ensures f in m0
    {
    }

    /** One level of `mm_paging_walk`: the next table, which is allocated and linked if it has to be. */
    method Descend(table: Frame, index: nat, alloc: bool, ghost p: seq<nat>) returns (ok: bool, next: Frame)
      requires Valid() && p in tree.at && |p| < 2 && tree.at[p] == table && index < 512
      requires !tree.SlotOf(ram.frames, p, index).Leaf()
      modifies this`tree, ram, allocator.above, allocator.below
      ensures Valid() && Frames() == old(Frames())
      ensures ok <==> p + [index] in old(tree.at) || (alloc && old(allocator.Free()) != {})
      ensures ok ==> p + [index] in tree.at && tree.at[p + [index]] == next
      ensures !ok ==> p + [index] !in tree.at
      ensures if ok && p + [index] !in old(tree.at)
              then next in old(allocator.Free()) && allocator.Free() == old(allocator.Free()) - {next}
              else allocator.Free() == old(allocator.Free())
      ensures forall q :: q in tree.at && q !in old(tree.at) ==> q == p + [index]
      ensures p + [index] in old(tree.at) ==> ram.frames == old(ram.frames) && tree == old(tree)
      ensures forall q :: q in old(tree.at) ==> q in tree.at && tree.at[q] == old(tree.at[q])
      ensures forall key :: IsKey(key) && |key| == 3 ==> Sees(key) == old(Sees(key)) && (old(Plain(key)) ==> Plain(key))
      ensures !alloc ==> ram.frames == old(ram.frames) && tree == old(tree)
      ensures alloc && !ok ==> allocator.Free() == {}
      ensures forall q, i: nat :: q in old(tree.at) && i < 512 && (q, i) != (p, index) ==>
        tree.SlotOf(ram.frames, q, i) == old(tree.SlotOf(ram.frames, q, i))
      ensures ok && p + [index] !in old(tree.at) ==>
        forall i: nat :: i < 512 ==> !tree.SlotOf(ram.frames, p + [index], i).valid
    {
      hide *;
      Opened();
      TableAt(p, index);
      var w := ram.Read(table, index);
      var e := Decode(w);
      if !e.valid {
        if !alloc {
          return false, 0;
        }
        ok, next := NewTable(table, index, p);
        return;
      }
      ok, next := true, e.ppn;
    }

    lemma ReachesLast(key: seq<nat>)
      requires Valid() && IsKey(key) && |key| == 3 && Plain(key)
      ensures [] in tree.at && tree.at[[]] == root && !tree.SlotOf(ram.frames, [], key[0]).Leaf()
      ensures [key[0]] in tree.at ==> !tree.SlotOf(ram.frames, [key[0]], key[1]).Leaf()
      ensures [] + [key[0]] == [key[0]] && [key[0]] + [key[1]] == [key[0], key[1]]
      ensures [key[0], key[1]] in tree.at ==> [key[0]] in tree.at
      ensures [key[0], key[1]] !in tree.at ==> Sees(key) == Fault
      ensures [key[0], key[1]] in tree.at ==>
        var e := tree.SlotOf(ram.frames, [key[0], key[1]], key[2]);
        Sees(key) == if e.valid then Maps(e) else Fault
    {
      tree.LastLevel(ram.frames, root, key);
      assert [key[0], key[1]] in tree.at ==> tree.NodeOk(ram.frames, [key[0], key[1]]);
      assert [key[0], key[1]][..1] == [key[0]];
    }

    /** How many tables are missing on the way to a page. */
    ghost function Missing(key: seq<nat>): nat
      requires |key| == 3
      reads this`tree
    {
      if [key[0]] !in tree.at then 2 else if [key[0], key[1]] !in tree.at then 1 else 0
    }

    lemma MissingIs(key: seq<nat>)
      requires Valid() && |key| == 3
      ensures Missing(key) == 0 <==> [key[0], key[1]] in tree.at
      ensures Missing(key) == if [key[0]] !in tree.at then 2 else if [key[0], key[1]] !in tree.at then 1 else 0
    {
      if [key[0], key[1]] in tree.at {
        tree.Prefix(ram.frames, root, [key[0], key[1]]);
        assert [key[0], key[1]][..1] == [key[0]];
      }
    }

    /** `mm_paging_walk`: the place of the last-level entry, as a table and an index. */
    method Walk(va: nat, alloc: bool) returns (ok: bool, table: Frame, index: nat)
      requires Valid() && Asserted(va) && va % 4096 == 0 && Plain(KeyOf(va))
      modifies this`tree, ram, allocator.above, allocator.below
      ensures Valid() && Frames() == old(Frames()) && index == KeyOf(va)[2]
      ensures var p := [KeyOf(va)[0], KeyOf(va)[1]];
        && (ok ==> p in tree.at && tree.at[p] == table)
        && (!ok ==> p !in tree.at) && (!alloc ==> ram.frames == old(ram.frames) && tree == old(tree))
      ensures alloc && !ok ==> allocator.Free() == {}
      ensures var missing := old(Missing(KeyOf(va)));
        && (ok <==> missing == 0 || (alloc && missing <= |old(allocator.Free())|))
        && (ok ==> |allocator.Free()| == |old(allocator.Free())| - missing)
        && (missing == 0 || !alloc ==>
              ram.frames == old(ram.frames) && tree == old(tree) && allocator.Free() == old(allocator.Free()))
      ensures forall key :: IsKey(key) && |key| == 3 ==> Sees(key) == old(Sees(key)) && (old(Plain(key)) ==> Plain(key))
    {
      hide *;
      var vpn2, vpn1, vpn0 := va / 0x4000_0000 % 512, va / 0x20_0000 % 512, va / 0x1000 % 512;
      ghost var key := KeyIs(va, vpn2, vpn1, vpn0);
      ghost var free, missing := allocator.Free(), Missing(key);
      ReachesLast(key);
      MissingIs(key);
      OneTaken(free);
      Paths(vpn2, vpn1);
      ok, table := Descend(root, vpn2, alloc, []);
      index := vpn0;
      ReachesLast(key);
      MissingIs(key);
      ghost var free' := allocator.Free();
      assert ok ==> Missing(key) == if missing == 2 then 1 else missing;
      assert ok ==> |free'| == |free| - if missing == 2 then 1 else 0;
      OneTaken(free');
      if !ok {
        return;
      }
      ok, table := Descend(table, vpn1, alloc, [vpn2]);
    }

    static lemma Paths(i: nat, j: nat)
      ensures [] + [i] == [i] && [i] + [j] == [i, j] && [i, j] != [i]
    {
    }

    static lemma OneTaken(free: set<Frame>)
      ensures free == {} <==> |free| == 0
      ensures forall f :: f in free ==> |free - {f}| == |free| - 1
    {
    }

    lemma EntrySet(m0: Memory, p: seq<nat>, i: nat, e: Entry)
      requires allocator.ram == ram && allocator.Valid() && MemoryOk(m0) && tree.Ok(m0, root)
      requires tree.owner.Keys !! allocator.Free() && p in tree.at && |p| == 2 && i < 512 && (e.valid ==> e.Leaf())
      requires tree.at[p] in m0 && ram.frames == Stored(m0, tree.at[p], i, Encode(e))
      ensures Valid() && Frames() == tree.owner.Keys + allocator.Free()
      ensures forall key :: IsKey(key) && |key| == 3 ==>
        Sees(key) == if key == p + [i] then (if e.valid then Maps(e) else Fault) else Translate(m0, root, key)
      ensures forall key :: IsKey(key) && |key| == 3 && tree.Outside(m0, key) ==> Plain(key)
    {
      DecodeEncode(e);
      assert tree.NodeOk(m0, p);
      assert tree.Written(m0, ram.frames, p, i, e);
      tree.WrittenOk(m0, ram.frames, root, p, i, e);
      hide *;
      EntryMakesValid();
      forall key | IsKey(key) && |key| == 3
        ensures Sees(key) == if key == p + [i] then (if e.valid then Maps(e) else Fault) else Translate(m0, root, key)
        ensures tree.Outside(m0, key) ==> Plain(key)
      {
        KeyAfter(m0, p, i, e, key);
      }
    }

    lemma EntryMakesValid()
      requires allocator.ram == ram && allocator.Valid() && tree.Ok(ram.frames, root)
      requires tree.owner.Keys !! allocator.Free()
      ensures Valid() && Frames() == tree.owner.Keys + allocator.Free()
    {
    }

    lemma KeyAfter(m0: Memory, p: seq<nat>, i: nat, e: Entry, key: seq<nat>)
      requires tree.Ok(m0, root) && p in tree.at && i < 512 && tree.Written(m0, ram.frames, p, i, e)
      requires IsKey(key) && |key| == 3
      ensures Sees(key) == if key == p + [i] then (if e.valid then Maps(e) else Fault) else Translate(m0, root, key)
      ensures tree.Outside(m0, key) ==> Plain(key)
    {
      assert [] + key == key && [] in tree.at && tree.at[[]] == root;
      tree.WrittenElsewhere(m0, ram.frames, root, p, i, e, [], key);
      tree.WrittenOutside(m0, ram.frames, root, p, i, e, key);
      hide Translate, Tree.Ok, Tree.Outside, Tree.Written;
    }

    /** `copy_to_physical` of a last-level entry. */
    method SetEntry(table: Frame, index: nat, e: Entry, ghost p: seq<nat>)
      requires Valid() && p in tree.at && |p| == 2 && tree.at[p] == table && index < 512 && (e.valid ==> e.Leaf())
      modifies ram
      ensures Valid() && Frames() == old(Frames())
      ensures forall key :: IsKey(key) && |key| == 3 ==>
        Sees(key) == (if key == p + [index] then (if e.valid then Maps(e) else Fault) else old(Sees(key)))
        && (old(Plain(key)) ==> Plain(key))
    {
      hide *;
      Opened();
      TableAt(p, index);
      ghost var m0 := ram.frames;
      allocator.WriteHeld(table, index, Encode(e));
      EntrySet(m0, p, index, e);
    }

    /** `mm_paging_map`: exactly the one page changes, and nothing does when it fails. */
    method Map(va: nat, pa: Frame, perms: Permissions) returns (r: MapResult)
      requires Valid() && Asserted(va) && va % 4096 == 0 && Plain(KeyOf(va))
      modifies this`tree, ram, allocator.above, allocator.below
      ensures Valid() && Frames() == old(Frames())
      ensures r == Halted <==> old(Sees(KeyOf(va))) != Fault
      ensures r == OutOfMemory <==> |old(allocator.Free())| < old(Missing(KeyOf(va)))
      ensures r == OutOfMemory ==> allocator.Free() == {}
      ensures r == Mapped ==> |allocator.Free()| == |old(allocator.Free())| - old(Missing(KeyOf(va)))
      ensures forall key :: IsKey(key) && |key| == 3 ==>
        Sees(key) == (if r == Mapped && key == KeyOf(va) then Maps(LeafFor(pa, perms)) else old(Sees(key)))
        && (old(Plain(key)) ==> Plain(key))
    {
      hide *;
      ghost var key := KeyParts(va);
      ReachesLast(key);
      var ok, table, index := Walk(va, true);
      ReachesLast(key);
      if !ok {
        return OutOfMemory;
      }
      ghost var p := [key[0], key[1]];
      Opened();
      TableAt(p, index);
      var w := ram.Read(table, index);
      if Decode(w).valid {
        return Halted;
      }
      LeafIs(pa, perms);
      SetEntry(table, index, LeafFor(pa, perms), p);
      r := Mapped;
    }

    /** `mm_paging_unmap`: gives back the frame that was mapped; exactly the one page changes. */
    method Unmap(va: nat) returns (ok: bool, pa: Frame)
      requires Valid() && Asserted(va) && va % 4096 == 0 && Plain(KeyOf(va))
      modifies this`tree, ram, allocator.above, allocator.below
      ensures Valid() && Frames() == old(Frames())
      ensures ok <==> old(Sees(KeyOf(va))) != Fault
      ensures tree == old(tree) && allocator.Free() == old(allocator.Free())
      ensures if ok then pa == old(Sees(KeyOf(va))).entry.ppn else pa == 0 && ram.frames == old(ram.frames)
      ensures forall key :: IsKey(key) && |key| == 3 ==>
        Sees(key) == (if key == KeyOf(va) then Fault else old(Sees(key))) && (old(Plain(key)) ==> Plain(key))
    {
      hide *;
      ghost var key := KeyParts(va);
      ReachesLast(key);
      pa := 0;
      var table, index;
      ok, table, index := Walk(va, false);
      if !ok {
        return;
      }
      ghost var p := [key[0], key[1]];
      Opened();
      TableAt(p, index);
      ReachesLast(key);
      var w := ram.Read(table, index);
      if !Decode(w).valid {
        return false, 0;
      }
      pa := Decode(w).ppn;
      NoEntryIs();
      SetEntry(table, index, NO_ENTRY, p);
    }
  }

  lemma LeafIs(pa: Frame, perms: Permissions)
    ensures LeafFor(pa, perms).valid && LeafFor(pa, perms).Leaf()
  {
  }

  lemma NoEntryIs()
    ensures !NO_ENTRY.valid
  {
  }

  lemma KeyParts(va: nat) returns (key: seq<nat>)
    ensures key == KeyOf(va) && IsKey(key) && |key| == 3 && [key[0], key[1]] + [key[2]] == key
  {
    key := KeyOf(va);
  }

  lemma KeyIs(va: nat, vpn2: nat, vpn1: nat, vpn0: nat) returns (key: seq<nat>)
    requires vpn2 == va / 0x4000_0000 % 512 && vpn1 == va / 0x20_0000 % 512 && vpn0 == va / 0x1000 % 512
    ensures key == KeyOf(va) == [vpn2, vpn1, vpn0] && IsKey(key) && |key| == 3
  {
    key := KeyOf(va);
  }
}
