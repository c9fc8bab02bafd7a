/**
  What the list of VMAs of `mm/virtual_alloc.c` looks like from outside: a tiling of the pages of
  the allocator, each tile used or free. Pages are counted from `lo_address`.
 */
module Tiles {

  datatype Tile = Tile(start: nat, pages: nat, used: bool) {
    function End(): nat { start + pages }
    ghost predicate Has(p: nat) { start <= p < End() }
  }

  /** The tiles are non-empty, in order, and leave neither gap nor overlap in `[lo, hi)`. */
  ghost predicate Tiling(ts: seq<Tile>, lo: nat, hi: nat) {
    && (ts == [] ==> lo == hi)
    && (ts != [] ==> ts[0].start == lo && ts[|ts| - 1].End() == hi)
    && (forall i :: 0 <= i < |ts| ==> ts[i].pages > 0)
    && (forall i {:trigger ts[i].End()} :: 0 <= i < |ts| - 1 ==> ts[i].End() == ts[i + 1].start)
  }

  /** No two neighbours are both free. */
  ghost predicate Coalesced(ts: seq<Tile>) {
    forall i, j :: 0 <= i && j == i + 1 && j < |ts| ==> ts[i].used || ts[j].used
  }

  ghost predicate FreePage(ts: seq<Tile>, p: nat) {
    exists i :: 0 <= i < |ts| && !ts[i].used && ts[i].Has(p)
  }

  ghost function UsedTiles(ts: seq<Tile>): set<Tile> {
    set t | t in ts && t.used
  }

  // ----- tilings as such

  lemma TilingConcat(x: seq<Tile>, y: seq<Tile>, lo: nat, mid: nat, hi: nat)
    requires Tiling(x, lo, mid) && Tiling(y, mid, hi)
    ensures Tiling(x + y, lo, hi)
  {
    var z := x + y;
    forall i | 0 <= i < |z| - 1
      ensures z[i].End() == z[i + 1].start
    {
      if i < |x| - 1 {
        assert x[i].End() == x[i + 1].start;
      } else if i > |x| - 1 {
        assert y[i - |x|].End() == y[i - |x| + 1].start;
      }
    }
  }

  /** Cutting a tiling at tile `k` gives two tilings. */
  lemma TilingCut(ts: seq<Tile>, lo: nat, hi: nat, k: nat)
    requires Tiling(ts, lo, hi) && k < |ts|
    ensures lo <= ts[k].start && ts[k].End() <= hi
    ensures Tiling(ts[..k], lo, ts[k].start) && Tiling(ts[k..], ts[k].start, hi)
    ensures Tiling(ts[k + 1..], ts[k].End(), hi)
  {
    assert k > 0 ==> ts[k - 1].End() == ts[k].start;
    assert ts[k].End() == if k + 1 < |ts| then ts[k + 1].start else hi;
    TilingOrder(ts, lo, hi, 0, k);
    TilingOrder(ts, lo, hi, k, |ts| - 1);
  }

  lemma {:induction false} TilingOrder(ts: seq<Tile>, lo: nat, hi: nat, i: nat, j: nat)
    requires Tiling(ts, lo, hi) && i <= j < |ts|
    ensures i < j ==> ts[i].End() <= ts[j].start
    ensures ts[i].start <= ts[j].start && ts[i].End() <= ts[j].End()
  {
    if i < j {
      TilingOrder(ts, lo, hi, i, j - 1);
      assert ts[j - 1].End() == ts[j].start;
    }
  }

  lemma {:induction false} TileUpTo(ts: seq<Tile>, lo: nat, hi: nat, p: nat, n: nat) returns (k: nat)
    requires Tiling(ts, lo, hi) && n < |ts| && lo <= p < ts[n].End()
    ensures k <= n && ts[k].Has(p)
  {
    if ts[n].start <= p {
      k := n;
    } else {
      assert ts[n - 1].End() == ts[n].start;
      k := TileUpTo(ts, lo, hi, p, n - 1);
    }
  }

  /** Every page lies in exactly one tile. */
  lemma OneTileHas(ts: seq<Tile>, lo: nat, hi: nat, p: nat) returns (k: nat)
    requires Tiling(ts, lo, hi) && lo <= p < hi
    ensures k < |ts| && ts[k].Has(p)
    ensures forall i :: 0 <= i < |ts| && ts[i].Has(p) ==> i == k
  {
    k := TileUpTo(ts, lo, hi, p, |ts| - 1);
    forall i | 0 <= i < |ts| && ts[i].Has(p)
      ensures i == k
    {
      TilingOrder(ts, lo, hi, if i < k then i else k, if i < k then k else i);
    }
  }

  lemma CoalescedConcat(x: seq<Tile>, y: seq<Tile>)
    requires Coalesced(x) && Coalesced(y)
    requires x == [] || y == [] || x[|x| - 1].used || y[0].used
    ensures Coalesced(x + y)
  {
    forall i, j | 0 <= i && j == i + 1 && j < |x + y|
      ensures (x + y)[i].used || (x + y)[j].used
    {
      if i < |x| - 1 {
        assert x[i].used || x[j].used;
      } else if i > |x| - 1 {
        assert y[i - |x|].used || y[j - |x|].used;
      }
    }
  }

  lemma UsedConcat(x: seq<Tile>, y: seq<Tile>)
    ensures UsedTiles(x + y) == UsedTiles(x) + UsedTiles(y)
  {
  }

  // ----- carving out and releasing

  function Rest(lo: nat, hi: nat): seq<Tile> {
    if lo < hi then [Tile(lo, hi - lo, false)] else []
  }

  ghost predicate Carvable(ts: seq<Tile>, k: nat, lo: nat, hi: nat) {
    k < |ts| && !ts[k].used && ts[k].start <= lo < hi <= ts[k].End()
  }

  function Middle(t: Tile, lo: nat, hi: nat): seq<Tile>
    requires lo < hi
  {
    Rest(t.start, lo) + [Tile(lo, hi - lo, true)] + Rest(hi, t.End())
  }

  /** `[lo, hi)` becomes a used tile of its own; what is left of the free tile `k` stays free. */
  function Carve(ts: seq<Tile>, k: nat, lo: nat, hi: nat): seq<Tile>
    requires k < |ts| && lo < hi
  {
    ts[..k] + Middle(ts[k], lo, hi) + ts[k + 1..]
  }

  /** Where the carved-out tile ends up. */
  function CarvedIndex(ts: seq<Tile>, k: nat, lo: nat): nat
    requires k < |ts|
  {
    if ts[k].start < lo then k + 1 else k
  }

  /** Tile `k` swallows its successor. */
  function Joined(ts: seq<Tile>, k: nat): seq<Tile>
    requires k + 1 < |ts|
  {
    ts[..k] + [Tile(ts[k].start, ts[k].pages + ts[k + 1].pages, false)] + ts[k + 2..]
  }

  function Freed(ts: seq<Tile>, k: nat): seq<Tile>
    requires k < |ts|
  {
    ts[k := ts[k].(used := false)]
  }

  /** `vma_free`: tile `k` becomes free and merges with free neighbours. */
  function Released(ts: seq<Tile>, k: nat): seq<Tile>
    requires k < |ts|
  {
    var right := if k + 1 < |ts| && !ts[k + 1].used then Joined(Freed(ts, k), k) else Freed(ts, k);
    if k > 0 && !ts[k - 1].used then Joined(right, k - 1) else right
  }

  lemma UsedSplit(ts: seq<Tile>, i: nat, j: nat)
    requires i <= j <= |ts|
    ensures UsedTiles(ts) == UsedTiles(ts[..i]) + UsedTiles(ts[i..j]) + UsedTiles(ts[j..])
  {
    assert ts == ts[..i] + ts[i..j] + ts[j..];
    UsedConcat(ts[..i], ts[i..j]);
    UsedConcat(ts[..i] + ts[i..j], ts[j..]);
  }

  lemma ReplaceTiling(ts: seq<Tile>, lo: nat, hi: nat, i: nat, j: nat, mid: seq<Tile>)
    requires Tiling(ts, lo, hi) && i < j <= |ts| && Tiling(mid, ts[i].start, ts[j - 1].End())
    ensures Tiling(ts[..i] + mid + ts[j..], lo, hi)
  {
    TilingCut(ts, lo, hi, i);
    TilingCut(ts, lo, hi, j - 1);
    hide Tiling;
    TilingConcat(ts[..i], mid, lo, ts[i].start, ts[j - 1].End());
    TilingConcat(ts[..i] + mid, ts[j..], lo, ts[j - 1].End(), hi);
  }

  lemma ReplaceUsed(ts: seq<Tile>, i: nat, j: nat, mid: seq<Tile>)
    requires i <= j <= |ts|
    ensures UsedTiles(ts[..i] + mid + ts[j..]) == UsedTiles(ts[..i]) + UsedTiles(mid) + UsedTiles(ts[j..])
  {
    UsedConcat(ts[..i], mid);
    UsedConcat(ts[..i] + mid, ts[j..]);
  }

  lemma ReplaceCoalesced(ts: seq<Tile>, i: nat, j: nat, mid: seq<Tile>)
    requires i <= j <= |ts| && mid != [] && Coalesced(ts) && Coalesced(mid)
    requires i == 0 || ts[i - 1].used || mid[0].used
    requires j == |ts| || ts[j].used || mid[|mid| - 1].used
    ensures Coalesced(ts[..i] + mid + ts[j..])
  {
    assert Coalesced(ts[..i]) by {
      assert forall m :: 0 <= m < i ==> ts[..i][m] == ts[m];
    }
    assert Coalesced(ts[j..]) by {
      forall m, n | 0 <= m && n == m + 1 && n < |ts| - j
        ensures ts[j..][m].used || ts[j..][n].used
      {
        assert ts[j + m].used || ts[j + n].used;
      }
    }
    CoalescedConcat(ts[..i], mid);
    CoalescedConcat(ts[..i] + mid, ts[j..]);
  }

  lemma NoFreeNeighbour(ts: seq<Tile>, k: nat)
    requires Coalesced(ts) && k < |ts| && !ts[k].used
    ensures k > 0 ==> ts[k - 1].used
    ensures k + 1 < |ts| ==> ts[k + 1].used
  {
  }

  lemma MiddleOk(t: Tile, a: nat, b: nat)
    requires t.start <= a < b <= t.End()
    ensures Tiling(Middle(t, a, b), t.start, t.End()) && Coalesced(Middle(t, a, b))
    ensures UsedTiles(Middle(t, a, b)) == {Tile(a, b - a, true)}
  {
  }

  /** Carving keeps the tiling coalesced and adds one used tile, the one asked for. */
  lemma CarveKeeps(ts: seq<Tile>, lo: nat, hi: nat, k: nat, a: nat, b: nat)
    requires Tiling(ts, lo, hi) && Coalesced(ts) && Carvable(ts, k, a, b)
    ensures Tiling(Carve(ts, k, a, b), lo, hi) && Coalesced(Carve(ts, k, a, b))
    ensures UsedTiles(Carve(ts, k, a, b)) == UsedTiles(ts) + {Tile(a, b - a, true)}
  {
    var mid := Middle(ts[k], a, b);
    MiddleOk(ts[k], a, b);
    assert Carve(ts, k, a, b) == ts[..k] + mid + ts[k + 1..];
    ReplaceFree(ts, lo, hi, k, mid, Tile(a, b - a, true));
  }

  /** A free tile gives way to others, one of which is used. */
  lemma ReplaceFree(ts: seq<Tile>, lo: nat, hi: nat, k: nat, mid: seq<Tile>, used: Tile)
    requires Tiling(ts, lo, hi) && Coalesced(ts) && k < |ts| && !ts[k].used
    requires Tiling(mid, ts[k].start, ts[k].End()) && Coalesced(mid) && UsedTiles(mid) == {used} && mid != []
    ensures Tiling(ts[..k] + mid + ts[k + 1..], lo, hi) && Coalesced(ts[..k] + mid + ts[k + 1..])
    ensures UsedTiles(ts[..k] + mid + ts[k + 1..]) == UsedTiles(ts) + {used}
  {
    NoFreeNeighbour(ts, k);
    assert ts[k..k + 1] == [ts[k]] && UsedTiles([ts[k]]) == {};
    hide *;
    ReplaceTiling(ts, lo, hi, k, k + 1, mid);
    ReplaceCoalesced(ts, k, k + 1, mid);
    ReplaceUsed(ts, k, k + 1, mid);
    UsedSplit(ts, k, k + 1);
  }

  lemma JoinedKeeps(ts: seq<Tile>, lo: nat, hi: nat, k: nat)
    requires Tiling(ts, lo, hi) && k + 1 < |ts| && !ts[k].used && !ts[k + 1].used
    ensures Tiling(Joined(ts, k), lo, hi)
    ensures UsedTiles(Joined(ts, k)) == UsedTiles(ts)
  {
    var mid := [Tile(ts[k].start, ts[k].pages + ts[k + 1].pages, false)];
    assert ts[k].End() == ts[k + 1].start;
    ReplaceTiling(ts, lo, hi, k, k + 2, mid);
    ReplaceUsed(ts, k, k + 2, mid);
    UsedSplit(ts, k, k + 2);
    assert UsedTiles(ts[k..k + 2]) == {} && UsedTiles(mid) == {};
  }

  lemma FreedKeeps(ts: seq<Tile>, lo: nat, hi: nat, k: nat)
    requires Tiling(ts, lo, hi) && k < |ts| && ts[k].used
    ensures Tiling(Freed(ts, k), lo, hi)
    ensures UsedTiles(Freed(ts, k)) == UsedTiles(ts) - {ts[k]}
  {
    var f := Freed(ts, k);
    forall i | 0 <= i < |ts|
      ensures f[i].End() == ts[i].End() && f[i].start == ts[i].start
      ensures i != k ==> ts[i] != ts[k]
    {
      TilingOrder(ts, lo, hi, if i < k then i else k, if i < k then k else i);
    }
  }

  /** Releasing keeps the tiling coalesced and drops exactly the released tile. */
  lemma ReleasedKeeps(ts: seq<Tile>, lo: nat, hi: nat, k: nat)
    requires Tiling(ts, lo, hi) && Coalesced(ts) && k < |ts| && ts[k].used
    ensures Tiling(Released(ts, k), lo, hi) && Coalesced(Released(ts, k))
    ensures UsedTiles(Released(ts, k)) == UsedTiles(ts) - {ts[k]}
  {
    var freed := Freed(ts, k);
    FreedKeeps(ts, lo, hi, k);
    var right := freed;
    if k + 1 < |ts| && !ts[k + 1].used {
      JoinedKeeps(freed, lo, hi, k);
      right := Joined(freed, k);
    }
    if k > 0 && !ts[k - 1].used {
      JoinedKeeps(right, lo, hi, k - 1);
    }
    ReleasedCoalesced(ts, k);
  }

  /** Releasing puts one free tile in the place of the tiles `i` up to `j` around `k`. */
  lemma ReleasedSplice(ts: seq<Tile>, k: nat) returns (i: nat, j: nat, t: Tile)
    requires k < |ts|
    ensures i == if k > 0 && !ts[k - 1].used then k - 1 else k
    ensures j == if k + 1 < |ts| && !ts[k + 1].used then k + 2 else k + 1
    ensures i <= k < j <= |ts| && Released(ts, k) == ts[..i] + [t] + ts[j..] && !t.used
  {
    i := if k > 0 && !ts[k - 1].used then k - 1 else k;
    j := if k + 1 < |ts| && !ts[k + 1].used then k + 2 else k + 1;
    var right := ts[k := ts[k].(used := false)];
    if k + 1 < j {
      right := Joined(right, k);
    }
    assert |right| == |ts| - (j - k - 1) && !right[k].used;
    assert right[..k] == ts[..k] && right[k + 1..] == ts[j..];
    if i < k {
      t := Tile(ts[i].start, ts[i].pages + right[k].pages, false);
      assert Joined(right, i) == ts[..i] + [t] + ts[j..];
    } else {
      t := right[k];
      assert right == right[..k] + [t] + right[k + 1..];
    }
  }

  lemma ReleasedCoalesced(ts: seq<Tile>, k: nat)
    requires Coalesced(ts) && k < |ts| && ts[k].used
    ensures Coalesced(Released(ts, k))
  {
    var i, j, t := ReleasedSplice(ts, k);
    if i < k {
      NoFreeNeighbour(ts, i);
    }
    if k + 1 < j {
      NoFreeNeighbour(ts, k + 1);
    }
    ReplaceCoalesced(ts, i, j, [t]);
  }

  // ----- the tile list is canonical

  /** At a common boundary, two coalesced tilings with the same used tiles go on with the same tile. */
  lemma SameTile(ts: seq<Tile>, us: seq<Tile>, lo: nat, hi: nat, i: nat)
    requires Tiling(ts, lo, hi) && Coalesced(ts) && Tiling(us, lo, hi) && Coalesced(us)
    requires UsedTiles(ts) == UsedTiles(us) && i < |ts| && i < |us| && ts[i].start == us[i].start
    requires ts[i].used || (!us[i].used && ts[i].End() <= us[i].End())
    ensures ts[i] == us[i]
  {
    if ts[i].used {
      UsedTileAt(ts, us, lo, hi, i, i);
    } else if ts[i].End() < us[i].End() {
      TilingCut(us, lo, hi, i);
      TilingCut(ts, lo, hi, i);
      assert ts[i].End() == ts[i + 1].start;
      NoFreeNeighbour(ts, i);
      UsedTileAt(ts, us, lo, hi, i + 1, i);
    }
  }

  /** A used tile of one list is not cut by the other list. */
  lemma UsedTileAt(ts: seq<Tile>, us: seq<Tile>, lo: nat, hi: nat, i: nat, n: nat)
    requires Tiling(ts, lo, hi) && Tiling(us, lo, hi) && UsedTiles(ts) == UsedTiles(us)
    requires i < |ts| && n < |us| && ts[i].used && us[n].Has(ts[i].start)
    ensures us[n] == ts[i]
  {
    assert ts[i] in UsedTiles(us);
    var m :| 0 <= m < |us| && us[m] == ts[i];
    TilingOrder(us, lo, hi, if m < n then m else n, if m < n then n else m);
  }

  lemma {:induction false} SamePrefix(ts: seq<Tile>, us: seq<Tile>, lo: nat, hi: nat, n: nat)
    requires Tiling(ts, lo, hi) && Coalesced(ts) && Tiling(us, lo, hi) && Coalesced(us)
    requires UsedTiles(ts) == UsedTiles(us) && n <= |ts| && n <= |us|
    ensures ts[..n] == us[..n]
  {
    if n > 0 {
      var i := n - 1;
      SamePrefix(ts, us, lo, hi, i);
      if i > 0 {
        assert ts[i - 1] == ts[..i][i - 1] == us[..i][i - 1] == us[i - 1];
        assert ts[i - 1].End() == ts[i].start && us[i - 1].End() == us[i].start;
      }
      if ts[i].used || (!us[i].used && ts[i].End() <= us[i].End()) {
        SameTile(ts, us, lo, hi, i);
      } else {
        SameTile(us, ts, lo, hi, i);
      }
    }
  }

  /**
    The tile list is a function of the used intervals: there is one coalesced tiling of `[lo, hi)`
    with given used tiles.
   */
  lemma Canonical(ts: seq<Tile>, us: seq<Tile>, lo: nat, hi: nat)
    requires Tiling(ts, lo, hi) && Coalesced(ts) && Tiling(us, lo, hi) && Coalesced(us)
    requires UsedTiles(ts) == UsedTiles(us)
    ensures ts == us
  {
    var n := if |ts| < |us| then |ts| else |us|;
    SamePrefix(ts, us, lo, hi, n);
    assert n > 0 ==> ts[n - 1] == ts[..n][n - 1] == us[..n][n - 1] == us[n - 1];
    if n < |ts| {
      TilingCut(ts, lo, hi, n);
    } else if n < |us| {
      TilingCut(us, lo, hi, n);
    }
  }

  /** Releasing right after carving gives back the very same tile list. */
  lemma ReleasedCarve(ts: seq<Tile>, lo: nat, hi: nat, k: nat, a: nat, b: nat)
    requires Tiling(ts, lo, hi) && Coalesced(ts) && Carvable(ts, k, a, b)
    ensures var c := CarvedIndex(ts, k, a);
      c < |Carve(ts, k, a, b)| && Carve(ts, k, a, b)[c] == Tile(a, b - a, true)
      && Released(Carve(ts, k, a, b), c) == ts
  {
    var cs := Carve(ts, k, a, b);
    var c := CarvedIndex(ts, k, a);
    CarveKeeps(ts, lo, hi, k, a, b);
    ReleasedKeeps(cs, lo, hi, c);
    assert Tile(a, b - a, true) !in UsedTiles(ts) by {
      if Tile(a, b - a, true) in UsedTiles(ts) {
        var i :| 0 <= i < |ts| && ts[i] == Tile(a, b - a, true);
        TilingOrder(ts, lo, hi, if i < k then i else k, if i < k then k else i);
      }
    }
    Canonical(Released(cs, c), ts, lo, hi);
  }

  /** Once nothing is used any more, one free tile covers everything. */
  lemma NothingUsed(ts: seq<Tile>, lo: nat, hi: nat)
    requires Tiling(ts, lo, hi) && Coalesced(ts) && lo < hi && UsedTiles(ts) == {}
    ensures ts == [Tile(lo, hi - lo, false)]
  {
    var one := [Tile(lo, hi - lo, false)];
    Canonical(ts, one, lo, hi);
  }

  // ----- free pages

  ghost predicate AllFree(ts: seq<Tile>, a: nat, b: nat) {
    forall p :: a <= p < b ==> FreePage(ts, p)
  }

  /** A page of the allocator is free exactly when no used tile has it. */
  lemma FreeIffNotUsed(ts: seq<Tile>, lo: nat, hi: nat, p: nat)
    requires Tiling(ts, lo, hi) && lo <= p < hi
    ensures FreePage(ts, p) <==> forall t :: t in UsedTiles(ts) ==> !t.Has(p)
  {
    var k := OneTileHas(ts, lo, hi, p);
    if ts[k].used {
      assert ts[k] in UsedTiles(ts);
    }
  }

  /** Carving takes exactly the pages asked for out of the free set. */
  lemma CarveTakes(ts: seq<Tile>, lo: nat, hi: nat, k: nat, a: nat, b: nat, p: nat)
    requires Tiling(ts, lo, hi) && Coalesced(ts) && Carvable(ts, k, a, b) && lo <= p < hi
    ensures FreePage(Carve(ts, k, a, b), p) <==> FreePage(ts, p) && !(a <= p < b)
  {
    var cs := Carve(ts, k, a, b);
    CarveKeeps(ts, lo, hi, k, a, b);
    FreeIffNotUsed(ts, lo, hi, p);
    FreeIffNotUsed(cs, lo, hi, p);
    assert Tile(a, b - a, true) in UsedTiles(cs);
  }

  /** Releasing adds exactly the pages of the released tile. */
  lemma ReleaseGives(ts: seq<Tile>, lo: nat, hi: nat, k: nat, p: nat)
    requires Tiling(ts, lo, hi) && Coalesced(ts) && k < |ts| && ts[k].used && lo <= p < hi
    ensures FreePage(Released(ts, k), p) <==> FreePage(ts, p) || ts[k].Has(p)
  {
    ReleasedKeeps(ts, lo, hi, k);
    FreeIffNotUsed(ts, lo, hi, p);
    FreeIffNotUsed(Released(ts, k), lo, hi, p);
    var m := OneTileHas(ts, lo, hi, p);
    forall t | t in UsedTiles(ts) && t.Has(p)
      ensures t == ts[m]
    {
    }
  }

  /** In a coalesced tiling a stretch of free pages never crosses a tile boundary. */
  lemma FreeRunInOneTile(ts: seq<Tile>, lo: nat, hi: nat, a: nat, b: nat) returns (k: nat)
    requires Tiling(ts, lo, hi) && Coalesced(ts) && a < b && AllFree(ts, a, b)
    ensures Carvable(ts, k, a, b)
  {
    assert FreePage(ts, a);
    var i :| 0 <= i < |ts| && !ts[i].used && ts[i].Has(a);
    k := i;
    if ts[k].End() < b {
      var p := ts[k].End();
      assert FreePage(ts, p);
      var j :| 0 <= j < |ts| && !ts[j].used && ts[j].Has(p);
      TilingOrder(ts, lo, hi, if j < k then j else k, if j < k then k else j);
      assert ts[k].End() == ts[k + 1].start;
      NoFreeNeighbour(ts, k);
      TilingOrder(ts, lo, hi, if j < k + 1 then j else k + 1, if j < k + 1 then k + 1 else j);
    }
  }

  /** `[a, b)` can be carved out exactly when every page in it is free. */
  lemma CarvableIffAllFree(ts: seq<Tile>, lo: nat, hi: nat, a: nat, b: nat)
    requires Tiling(ts, lo, hi) && Coalesced(ts) && a < b
    ensures (exists k: nat :: Carvable(ts, k, a, b)) <==> AllFree(ts, a, b)
  {
    if AllFree(ts, a, b) {
      var k := FreeRunInOneTile(ts, lo, hi, a, b);
    }
    if k: nat :| Carvable(ts, k, a, b) {
      forall p | a <= p < b
        ensures FreePage(ts, p)
      {
        assert ts[k].Has(p);
      }
    }
  }

  ghost predicate FreeRun(ts: seq<Tile>, a: nat, pages: nat) {
    AllFree(ts, a, a + pages)
  }

  ghost predicate Fits(ts: seq<Tile>, pages: nat, k: nat) {
    k < |ts| && !ts[k].used && pages <= ts[k].pages
  }

  /** A free tile of the size exists exactly when a run of that many consecutive free pages does. */
  lemma FitsIffFreeRun(ts: seq<Tile>, lo: nat, hi: nat, pages: nat)
    requires Tiling(ts, lo, hi) && Coalesced(ts) && pages > 0
    ensures (exists k: nat :: Fits(ts, pages, k)) <==> (exists a: nat :: FreeRun(ts, a, pages))
  {
    if k: nat :| Fits(ts, pages, k) {
      var a := ts[k].start;
      assert Carvable(ts, k, a, a + pages);
      CarvableIffAllFree(ts, lo, hi, a, a + pages);
      assert FreeRun(ts, a, pages);
    }
    if a: nat :| FreeRun(ts, a, pages) {
      var k := FreeRunInOneTile(ts, lo, hi, a, a + pages);
      assert Fits(ts, pages, k);
    }
  }

  /** What `vma_alloc` picks: no smaller free tile would do. */
  ghost predicate BestFit(ts: seq<Tile>, pages: nat, k: nat) {
    && Fits(ts, pages, k)
    && (forall j: nat :: Fits(ts, pages, j) ==> ts[k].pages <= ts[j].pages)
  }

  /** No free tile has so many pages. */
  ghost predicate NoFit(ts: seq<Tile>, pages: nat) {
    forall j: nat :: !Fits(ts, pages, j)
  }

  lemma NoFitIs(ts: seq<Tile>, pages: nat)
    ensures NoFit(ts, pages) <==> forall j: nat :: !Fits(ts, pages, j)
  {
  }

  // ----- whole runs

  /** Taking `[a, b)` out of free tile `k`, or giving used tile `k` back. */
  datatype Step = Take(k: nat, a: nat, b: nat) | Give(k: nat)

  ghost predicate Legal(ts: seq<Tile>, step: Step) {
    match step
    case Take(k, a, b) => Carvable(ts, k, a, b)
    case Give(k) => k < |ts| && ts[k].used
  }

  ghost function After(ts: seq<Tile>, step: Step): seq<Tile>
    requires Legal(ts, step)
  {
    match step
    case Take(k, a, b) => Carve(ts, k, a, b)
    case Give(k) => Released(ts, k)
  }

  ghost predicate LegalRun(ts: seq<Tile>, steps: seq<Step>)
    decreases |steps|
  {
    steps == [] || (Legal(ts, steps[0]) && LegalRun(After(ts, steps[0]), steps[1..]))
  }

  ghost function AfterAll(ts: seq<Tile>, steps: seq<Step>): seq<Tile>
    requires LegalRun(ts, steps)
    decreases |steps|
  {
    if steps == [] then ts else AfterAll(After(ts, steps[0]), steps[1..])
  }

  /** Every reachable tile list is a coalesced tiling of the same range. */
  lemma {:induction false} RunKeeps(ts: seq<Tile>, lo: nat, hi: nat, steps: seq<Step>)
    requires Tiling(ts, lo, hi) && Coalesced(ts) && LegalRun(ts, steps)
    ensures Tiling(AfterAll(ts, steps), lo, hi) && Coalesced(AfterAll(ts, steps))
    decreases |steps|
  {
    if steps != [] {
      match steps[0] {
        case Take(k, a, b) => CarveKeeps(ts, lo, hi, k, a, b);
        case Give(k) => ReleasedKeeps(ts, lo, hi, k);
      }
      RunKeeps(After(ts, steps[0]), lo, hi, steps[1..]);
    }
  }

  /** Giving every used tile back, in whatever order, leaves one free tile over the whole range. */
  lemma {:induction false} GivingAllBack(ts: seq<Tile>, lo: nat, hi: nat, steps: seq<Step>)
    requires Tiling(ts, lo, hi) && Coalesced(ts) && lo < hi && LegalRun(ts, steps)
    requires |steps| == |UsedTiles(ts)| && forall i :: 0 <= i < |steps| ==> steps[i].Give?
    ensures AfterAll(ts, steps) == [Tile(lo, hi - lo, false)]
    decreases |steps|
  {
    if steps == [] {
      NothingUsed(ts, lo, hi);
    } else {
      var k := steps[0].k;
      assert ts[k] in UsedTiles(ts);
      ReleasedKeeps(ts, lo, hi, k);
      GivingAllBack(After(ts, steps[0]), lo, hi, steps[1..]);
    }
  }
}
