/** Sv39 page tables in physical memory, and what the hardware makes of them. */
module PageTree {
  import opened Integers
  import opened PhysicalMemory
  import opened Pte

  datatype Translation = Fault | Maps(entry: Entry)

  ghost predicate IsKey(key: seq<nat>) {
    |key| <= 3 && forall i :: 0 <= i < |key| ==> key[i] < 512
  }

  ghost predicate IsTable(m: Memory, f: Frame) {
    f in m && |m[f]| == 512
  }

  ghost function EntryAt(m: Memory, f: Frame, i: nat): Entry
    requires IsTable(m, f) && i < 512
  {
    Decode(m[f][i])
  }

  /**
    The address translation of section 4.3.2 of the Privileged Architecture, from the table `f` on with
    the rest `key` of the indices: a leaf before the last index is a superpage.
   */
  ghost function Translate(m: Memory, f: Frame, key: seq<nat>): Translation
    requires IsKey(key) && key != []
    decreases |key|
  {
    if !IsTable(m, f) then Fault
    else
      var e := EntryAt(m, f, key[0]);
      if e.Leaf() then Maps(e)
      else if !e.Pointer() || |key| == 1 then Fault
      else Translate(m, e.ppn, key[1..])
  }

  /** How many indices are left when the translation meets a leaf: 0 for a page of 4 KiB. */
  ghost function RestOf(m: Memory, f: Frame, key: seq<nat>): nat
    requires IsKey(key) && key != []
    decreases |key|
  {
    if !IsTable(m, f) then 0
    else
      var e := EntryAt(m, f, key[0]);
      if e.Leaf() || !e.Pointer() || |key| == 1 then |key| - 1 else RestOf(m, e.ppn, key[1..])
  }

  /** What `mm_paging_walk` does instead: it takes every valid entry before the last for a pointer. */
  ghost function Follow(m: Memory, f: Frame, key: seq<nat>): Translation
    requires IsKey(key) && key != []
    decreases |key|
  {
    if !IsTable(m, f) then Fault
    else
      var e := EntryAt(m, f, key[0]);
      if !e.valid then Fault
      else if |key| == 1 then Maps(e)
      else Follow(m, e.ppn, key[1..])
  }

  /** A root table in frame 1, all of whose entries map the superpage at frame 5, and an empty frame 5. */
  ghost const SUPER_LEAF: Entry := Entry(true, true, false, false, false, false, true, true, 0, 5, 0)

  ghost function SuperMemory(w: u64): Memory {
    map[1 := seq(512, i => w), 5 := seq(512, i => 0)]
  }

  /** Under a superpage, the walk takes the first words of the mapped memory for a table. */
  lemma SuperpageMisread() returns (m: Memory, key: seq<nat>)
    ensures IsKey(key) && |key| == 3
    ensures Translate(m, 1, key) == Maps(SUPER_LEAF) && RestOf(m, 1, key) == 2 && Follow(m, 1, key) == Fault
  {
    DecodeEncode(SUPER_LEAF);
    ZeroIsInvalid();
    EntryFits(SUPER_LEAF);
    key := [0, 0, 0];
    var w: u64 := Encode(SUPER_LEAF);
    m := SuperMemory(w);
    SuperEntries(w);
    hide Encode, Decode, SuperMemory, IsTable, EntryAt;
    assert Follow(m, 5, key[1..]) == Fault;
  }

  lemma SuperEntries(w: u64)
    ensures var m := SuperMemory(w);
      IsTable(m, 1) && IsTable(m, 5) && EntryAt(m, 1, 0) == Decode(w) && EntryAt(m, 5, 0) == Decode(0)
  {
  }

  /**
    Where the tables are: for the root and for each index path of one or two entries that has a table,
    the frame of that table. `owner` is the other way round, so no frame is two tables.
   */
  datatype Tree = Tree(at: map<seq<nat>, Frame>, owner: map<Frame, seq<nat>>) {

    ghost predicate NodeOk(m: Memory, p: seq<nat>)
      requires p in at
    {
      && |p| <= 2 && IsKey(p) && IsTable(m, at[p]) && at[p] in owner && owner[at[p]] == p
      && (p != [] ==> p[..|p| - 1] in at)
    }

    /** The entry of the table at `p`: above the last level it points to the table at `p + [i]`, if there is one. */
    ghost predicate SlotOk(m: Memory, p: seq<nat>, i: nat)
      requires p in at && IsTable(m, at[p]) && i < 512
    {
      var e := EntryAt(m, at[p], i);
      && (e.valid ==> e.Leaf() || e.Pointer())
      && (if |p| < 2 && e.Pointer() then p + [i] in at && at[p + [i]] == e.ppn else p + [i] !in at)
      && (|p| == 2 ==> !e.Pointer())
    }

    ghost predicate Ok(m: Memory, root: Frame) {
      && [] in at && at[[]] == root
      && (forall p {:trigger NodeOk(m, p)} :: p in at ==> NodeOk(m, p))
      && (forall p, i: nat {:trigger SlotOk(m, p, i)} :: p in at && NodeOk(m, p) && i < 512 ==> SlotOk(m, p, i))
      && (forall f :: f in owner ==> owner[f] in at && at[owner[f]] == f)
    }

    /** No entry on the path to the last table maps a superpage. */
    ghost predicate Outside(m: Memory, key: seq<nat>)
      requires IsKey(key) && |key| == 3
    {
      && [] in at && !SlotOf(m, [], key[0]).Leaf()
      && ([key[0]] in at ==> !SlotOf(m, [key[0]], key[1]).Leaf())
    }

    ghost function SlotOf(m: Memory, p: seq<nat>, i: nat): Entry
      requires p in at && i < 512
    {
      if IsTable(m, at[p]) then EntryAt(m, at[p], i) else Decode(0)
    }

    // ----- a new table

    ghost predicate Grown(m: Memory, m': Memory, q: seq<nat>, i: nat, f: Frame)
      requires q in at && i < 512
    {
      && |q| < 2 && !SlotOf(m, q, i).valid && f !in owner && IsTable(m, at[q])
      && IsTable(m', f) && (forall j: nat {:trigger EntryAt(m', f, j)} :: j < 512 ==> !EntryAt(m', f, j).valid)
      && IsTable(m', at[q]) && EntryAt(m', at[q], i).Pointer() && EntryAt(m', at[q], i).ppn == f
      && (forall j: nat {:trigger EntryAt(m', at[q], j)} :: j < 512 && j != i ==>
            EntryAt(m', at[q], j) == EntryAt(m, at[q], j))
      && (forall g :: g in owner && g != at[q] && g in m ==> g in m' && m'[g] == m[g])
    }

    ghost function Grow(q: seq<nat>, i: nat, f: Frame): Tree {
      Tree(at[q + [i] := f], owner[f := q + [i]])
    }

    lemma GrownSlot(m: Memory, m': Memory, root: Frame, q: seq<nat>, i: nat, f: Frame, p: seq<nat>, j: nat)
      requires Ok(m, root) && q in at && i < 512 && Grown(m, m', q, i, f) && p in at && j < 512
      ensures IsTable(m, at[p]) && IsTable(m', at[p]) && SlotOk(m, p, j)
      ensures (p, j) != (q, i) ==> EntryAt(m', at[p], j) == EntryAt(m, at[p], j)
      ensures (p, j) != (q, i) ==> p + [j] != q + [i]
      ensures (p, j) == (q, i) ==>
        EntryAt(m', at[p], j).Pointer() && EntryAt(m', at[p], j).ppn == f && !EntryAt(m, at[p], j).valid
    {
      assert NodeOk(m, p) && NodeOk(m, q);
      SnocInjective(p, j, q, i);
    }

    lemma GrownNode(m: Memory, m': Memory, root: Frame, q: seq<nat>, i: nat, f: Frame, p: seq<nat>)
      requires Ok(m, root) && q in at && i < 512 && Grown(m, m', q, i, f) && p in Grow(q, i, f).at
      ensures q + [i] !in at && Grow(q, i, f).NodeOk(m', p)
    {
      assert NodeOk(m, q);
      GrownSlot(m, m', root, q, i, f, q, i);
      assert (q + [i])[..|q|] == q;
      if p in at {
        assert NodeOk(m, p);
        GrownSlot(m, m', root, q, i, f, p, 0);
      }
    }

    lemma GrownSlotOk(m: Memory, m': Memory, root: Frame, q: seq<nat>, i: nat, f: Frame, p: seq<nat>, j: nat)
      requires Ok(m, root) && q in at && i < 512 && Grown(m, m', q, i, f) && p in Grow(q, i, f).at && j < 512
      requires Grow(q, i, f).NodeOk(m', p)
      ensures Grow(q, i, f).SlotOk(m', p, j)
    {
      GrownNode(m, m', root, q, i, f, p);
      if p in at {
        GrownSlot(m, m', root, q, i, f, p, j);
        hide Ok, Grown, NodeOk, Translate, Follow, RestOf;
      } else {
        NothingBelow(m, root, q + [i], j);
        hide Ok, NodeOk, Translate, Follow, RestOf;
      }
    }

    /** Below a path without a table there is none. */
    lemma NothingBelow(m: Memory, root: Frame, p: seq<nat>, j: nat)
      requires Ok(m, root) && p !in at
      ensures p + [j] !in at && p + [j] != p
    {
      assert (p + [j])[..|p|] == p;
      assert p + [j] in at ==> NodeOk(m, p + [j]);
    }

    lemma GrownOk(m: Memory, m': Memory, root: Frame, q: seq<nat>, i: nat, f: Frame)
      requires Ok(m, root) && q in at && i < 512 && Grown(m, m', q, i, f)
      ensures Grow(q, i, f).Ok(m', root)
    {
      var t := Grow(q, i, f);
      forall p | p in t.at
        ensures t.NodeOk(m', p) && (p in at ==> p != q + [i])
      {
        GrownNode(m, m', root, q, i, f, p);
      }
      forall p, j: nat | p in t.at && t.NodeOk(m', p) && j < 512
        ensures t.SlotOk(m', p, j)
      {
        GrownSlotOk(m, m', root, q, i, f, p, j);
      }
    }

    lemma {:induction false} GrownSame(m: Memory, m': Memory, root: Frame, q: seq<nat>, i: nat, f: Frame, p: seq<nat>,
                                       key: seq<nat>)
      requires Ok(m, root) && q in at && i < 512 && Grown(m, m', q, i, f)
      requires p in at && IsKey(key) && key != [] && |p| + |key| == 3
      ensures Translate(m', at[p], key) == Translate(m, at[p], key)
      decreases |key|
    {
      GrownSlot(m, m', root, q, i, f, p, key[0]);
      if (p, key[0]) == (q, i) {
        assert !EntryAt(m', f, key[1]).valid;
      } else if EntryAt(m, at[p], key[0]).Pointer() && |key| > 1 {
        GrownSame(m, m', root, q, i, f, p + [key[0]], key[1..]);
      }
    }

    lemma GrownOutside(m: Memory, m': Memory, root: Frame, q: seq<nat>, i: nat, f: Frame, key: seq<nat>)
      requires Ok(m, root) && q in at && i < 512 && Grown(m, m', q, i, f) && IsKey(key) && |key| == 3
      ensures Outside(m, key) ==> Grow(q, i, f).Outside(m', key)
    {
      GrownNode(m, m', root, q, i, f, q);
      GrownSlot(m, m', root, q, i, f, [], key[0]);
      if [key[0]] in at {
        GrownSlot(m, m', root, q, i, f, [key[0]], key[1]);
      }
    }

    // ----- a new entry in a last-level table

    ghost predicate Written(m: Memory, m': Memory, q: seq<nat>, i: nat, e: Entry)
      requires q in at && i < 512
    {
      && |q| == 2 && (e.valid ==> e.Leaf()) && IsTable(m, at[q]) && IsTable(m', at[q]) && EntryAt(m', at[q], i) == e
      && (forall j: nat {:trigger EntryAt(m', at[q], j)} :: j < 512 && j != i ==>
            EntryAt(m', at[q], j) == EntryAt(m, at[q], j))
      && (forall g :: g in owner && g != at[q] && g in m ==> g in m' && m'[g] == m[g])
    }

    lemma WrittenSlot(m: Memory, m': Memory, root: Frame, q: seq<nat>, i: nat, e: Entry, p: seq<nat>, j: nat)
      requires Ok(m, root) && q in at && i < 512 && Written(m, m', q, i, e) && p in at && j < 512
      ensures IsTable(m, at[p]) && IsTable(m', at[p]) && SlotOk(m, p, j)
      ensures EntryAt(m', at[p], j) == if (p, j) == (q, i) then e else EntryAt(m, at[p], j)
    {
      assert NodeOk(m, p) && NodeOk(m, q);
    }

    lemma WrittenOk(m: Memory, m': Memory, root: Frame, q: seq<nat>, i: nat, e: Entry)
      requires Ok(m, root) && q in at && i < 512 && Written(m, m', q, i, e)
      ensures Ok(m', root)
    {
      forall p | p in at
        ensures NodeOk(m', p)
      {
        assert NodeOk(m, p);
        WrittenSlot(m, m', root, q, i, e, p, 0);
      }
      forall p, j: nat | p in at && NodeOk(m', p) && j < 512
        ensures SlotOk(m', p, j)
      {
        WrittenSlot(m, m', root, q, i, e, p, j);
        if p + [j] in at {
          assert NodeOk(m, p + [j]);
        }
      }
    }

    lemma WrittenOutside(m: Memory, m': Memory, root: Frame, q: seq<nat>, i: nat, e: Entry, key: seq<nat>)
      requires Ok(m, root) && q in at && i < 512 && Written(m, m', q, i, e) && IsKey(key) && |key| == 3
      ensures Outside(m, key) ==> Outside(m', key)
    {
      WrittenSlot(m, m', root, q, i, e, [], key[0]);
      if [key[0]] in at {
        WrittenSlot(m, m', root, q, i, e, [key[0]], key[1]);
      }
    }

    /** One level down: where the entry is no leaf, it points to the table below, or there is none. */
    lemma StepDown(m: Memory, root: Frame, p: seq<nat>, key: seq<nat>)
      requires Ok(m, root) && p in at && IsKey(key) && |key| >= 2 && |p| + |key| == 3 && !SlotOf(m, p, key[0]).Leaf()
      ensures p + [key[0]] in at ==> Translate(m, at[p], key) == Translate(m, at[p + [key[0]]], key[1..])
      ensures p + [key[0]] !in at ==> Translate(m, at[p], key) == Fault
    {
      assert NodeOk(m, p) && SlotOk(m, p, key[0]);
    }

    /** The last level: the entry maps the page, or is not valid. */
    lemma StepLast(m: Memory, root: Frame, p: seq<nat>, i: nat)
      requires Ok(m, root) && p in at && |p| == 2 && i < 512
      ensures var e := SlotOf(m, p, i); Translate(m, at[p], [i]) == if e.valid then Maps(e) else Fault
    {
      assert NodeOk(m, p) && SlotOk(m, p, i);
    }

    lemma Prefix(m: Memory, root: Frame, p: seq<nat>)
      requires Ok(m, root) && p in at
      ensures p != [] ==> p[..|p| - 1] in at
    {
      assert NodeOk(m, p);
    }

    /** What the hardware sees outside superpages is what the last-level table says, if there is one. */
    lemma LastLevel(m: Memory, root: Frame, key: seq<nat>)
      requires Ok(m, root) && IsKey(key) && |key| == 3 && Outside(m, key)
      ensures [key[0], key[1]] !in at ==> Translate(m, root, key) == Fault
      ensures [key[0], key[1]] in at ==>
        var e := SlotOf(m, [key[0], key[1]], key[2]);
        Translate(m, root, key) == if e.valid then Maps(e) else Fault
    {
      var p1, p2 := [key[0]], [key[0], key[1]];
      assert [] + [key[0]] == p1 && p1 + [key[1]] == p2 && p2[..1] == p1 && key[1..][1..] == [key[2]];
      assert at[[]] == root && [] in at;
      hide Ok, Translate, SlotOf;
      StepDown(m, root, [], key);
      if p1 in at {
        StepDown(m, root, p1, key[1..]);
        if p2 in at {
          StepLast(m, root, p2, key[2]);
        }
      } else if p2 in at {
        Prefix(m, root, p2);
      }
    }

    /** The software's walk down the tree: where there is no leaf on the way, it follows the hardware's path. */
    lemma FollowDown(m: Memory, root: Frame, p: seq<nat>, key: seq<nat>)
      requires Ok(m, root) && p in at && IsKey(key) && key != [] && |p| + |key| == 3
      requires |key| > 1 ==> !SlotOf(m, p, key[0]).Leaf()
      ensures |key| == 1 ==> Follow(m, at[p], key) == Translate(m, at[p], key) && RestOf(m, at[p], key) == 0
      ensures |key| > 1 ==> var e := SlotOf(m, p, key[0]);
        if e.valid then
          && p + [key[0]] in at && at[p + [key[0]]] == e.ppn
          && Follow(m, at[p], key) == Follow(m, e.ppn, key[1..])
          && Translate(m, at[p], key) == Translate(m, e.ppn, key[1..])
          && RestOf(m, at[p], key) == RestOf(m, e.ppn, key[1..])
        else Follow(m, at[p], key) == Translate(m, at[p], key) == Fault
    {
      assert NodeOk(m, p) && SlotOk(m, p, key[0]);
    }

    /** The software's walk agrees with the hardware's, on a page of 4 KiB, exactly outside superpages. */
    lemma AgreesIffOutside(m: Memory, root: Frame, key: seq<nat>)
      requires Ok(m, root) && IsKey(key) && |key| == 3
      ensures Outside(m, key) <==>
        Follow(m, root, key) == Translate(m, root, key) && (Translate(m, root, key).Maps? ==> RestOf(m, root, key) == 0)
    {
      var p1 := [key[0]];
      assert [] + [key[0]] == p1 && p1 + [key[1]] == [key[0], key[1]];
      assert NodeOk(m, []) && SlotOk(m, [], key[0]);
      var e := SlotOf(m, [], key[0]);
      if e.Leaf() {
        return;
      }
      FollowDown(m, root, [], key);
      if !e.valid {
        return;
      }
      assert NodeOk(m, p1) && SlotOk(m, p1, key[1]);
      var e1 := SlotOf(m, p1, key[1]);
      if e1.Leaf() {
        return;
      }
      FollowDown(m, root, p1, key[1..]);
      if e1.valid {
        FollowDown(m, root, p1 + [key[1]], key[1..][1..]);
      }
    }

    /** The hardware sees the new entry at that one place and everything else as before. */
    lemma {:induction false} WrittenElsewhere(m: Memory, m': Memory, root: Frame, q: seq<nat>, i: nat, e: Entry,
                                              p: seq<nat>, key: seq<nat>)
      requires Ok(m, root) && q in at && i < 512 && Written(m, m', q, i, e)
      requires p in at && IsKey(key) && key != [] && |p| + |key| == 3
      ensures Translate(m', at[p], key) ==
              if p + key == q + [i] then (if e.valid then Maps(e) else Fault) else Translate(m, at[p], key)
      decreases |key|
    {
      WrittenSlot(m, m', root, q, i, e, p, key[0]);
      if |key| == 1 {
        assert key == [key[0]];
        SnocInjective(p, key[0], q, i);
      } else {
        assert p + key == (p + [key[0]]) + key[1..];
        if EntryAt(m, at[p], key[0]).Pointer() {
          WrittenElsewhere(m, m', root, q, i, e, p + [key[0]], key[1..]);
        } else {
          NoTableBelow(m, root, p, key[0], q, i, key);
        }
      }
    }

    /** Where there is no pointer, no table lies below. */
    lemma NoTableBelow(m: Memory, root: Frame, p: seq<nat>, j: nat, q: seq<nat>, i: nat, key: seq<nat>)
      requires Ok(m, root) && p in at && j < 512 && q in at && |q| == 2 && |p| + |key| == 3 && |key| >= 2 && key[0] == j
      requires !SlotOf(m, p, j).Pointer()
      ensures p + key != q + [i]
    {
      assert NodeOk(m, p) && SlotOk(m, p, j) && NodeOk(m, q);
      assert (p + key)[..|p| + 1] == p + [j];
      assert (q + [i])[..1] == q[..1] && (q + [i])[..2] == q;
    }
  }

  lemma SnocInjective<T>(p: seq<T>, x: T, q: seq<T>, y: T)
    ensures p + [x] == q + [y] <==> p == q && x == y
  {
    if p + [x] == q + [y] {
      assert (p + [x])[..|p|] == p && (q + [y])[..|q|] == q;
      assert (p + [x])[|p|] == x && (q + [y])[|q|] == y;
    }
  }
}
