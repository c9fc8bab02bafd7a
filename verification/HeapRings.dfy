/**
  The page lists of a heap as the source keeps them: rings of the links inside the page records. They hold what
  the sequences of `HeapLists` say, and every operation and test on them is the one that `Heap` makes on those.
 */
module HeapRings {
  import opened Lists
  import opened HeapLists
  import opened HeapPages

  /** The ring of a list: its head, then the links of its pages. */
  ghost function RingOf(head: ListHead<Page?>, links: map<Page, ListHead<Page?>>,
                        pages: seq<Page>): (r: seq<ListHead<Page?>>)
    requires forall p :: p in pages ==> p in links
    ensures |r| == |pages| + 1 && r[0] == head && forall i :: 0 <= i < |pages| ==> r[i + 1] == links[pages[i]]
  {
    [head] + seq(|pages|, i requires 0 <= i < |pages| => links[pages[i]])
  }

  /** As `LIST_INIT` leaves a link. */
  predicate SelfLinked(x: ListHead<Page?>)
    reads x
  {
    x.prev == x.next == x
  }

  lemma SameRing(head: ListHead<Page?>, a: map<Page, ListHead<Page?>>, b: map<Page, ListHead<Page?>>, pages: seq<Page>)
    requires forall p :: p in pages ==> p in a && p in b && a[p] == b[p]
    ensures RingOf(head, a, pages) == RingOf(head, b, pages)
  {
    var r, t := RingOf(head, a, pages), RingOf(head, b, pages);
    forall i | 0 <= i < |r|
      ensures r[i] == t[i]
    {
      if i > 0 {
        assert pages[i - 1] in pages && r[i - 1 + 1] == a[pages[i - 1]] && t[i - 1 + 1] == b[pages[i - 1]];
      }
    }
  }

  lemma OldPageOk(lists: map<ListId, seq<Page>>, loc: map<Page, ListId>, p: Page)
    requires ListsOk(lists, loc) && p in loc && loc[p] == Nowhere
    ensures ListsOk(lists, loc - {p})
  {
  }

  /** Every link is that of one page or one list. */
  ghost predicate LinksApart(heads: map<ListId, ListHead<Page?>>, links: map<Page, ListHead<Page?>>) {
    && (forall p, q :: p in links && q in links && links[p] == links[q] ==> p == q)
    && (forall l, m :: l in heads && m in heads && heads[l] == heads[m] ==> l == m)
    && (forall l, p :: l in heads && p in links ==> heads[l] != links[p])
  }

  lemma OneMoreLink(heads: map<ListId, ListHead<Page?>>, links: map<Page, ListHead<Page?>>, p: Page,
                    link: ListHead<Page?>)
    requires LinksApart(heads, links) && p !in links && link !in heads.Values && link !in links.Values
    ensures LinksApart(heads, links[p := link])
  {
  }

  lemma OneLinkLess(heads: map<ListId, ListHead<Page?>>, links: map<Page, ListHead<Page?>>, p: Page)
    requires LinksApart(heads, links)
    ensures LinksApart(heads, links - {p})
  {
  }

  class PageRings {
    var heads: map<ListId, ListHead<Page?>>
    var links: map<Page, ListHead<Page?>>
    ghost var lists: map<ListId, seq<Page>>
    ghost var loc: map<Page, ListId>

    /** `LIST_INIT` of every list of the heap. */
    constructor ()
      ensures Valid() && fresh(Repr()) && lists == map l: ListId | l in AllLists() :: []
      ensures loc == map[]
    {
      heads, links, lists, loc := map[], map[], map[], map[];
      new;
      hide *;
      var todo := AllLists();
      while todo != {}
        invariant todo <= AllLists() && heads.Keys == AllLists() - todo && links == map[] && loc == map[]
        invariant forall l :: l in heads ==> fresh(heads[l]) && SelfLinked(heads[l])
        invariant forall l, m :: l in heads && m in heads && heads[l] == heads[m] ==> l == m
        decreases todo
      {
        var l :| l in todo;
        var head := new ListHead<Page?>(null);
        SelfLinkedIs(head);
        heads, todo := heads[l := head], todo - {l};
      }
      lists := map l: ListId | l in AllLists() :: [];
      EmptyRings();
      ReprIs();
    }

    lemma ReprIs()
      ensures Repr() == heads.Values + links.Values
    {
    }

    lemma EmptyRings()
      requires heads.Keys == AllLists() && links == map[] && loc == map[]
      requires lists == map l: ListId | l in AllLists() :: []
      requires forall l :: l in heads ==> SelfLinked(heads[l])
      requires forall l, m :: l in heads && m in heads && heads[l] == heads[m] ==> l == m
      ensures Valid()
    {
      assert Shape();
      hide Ring;
      forall l {:trigger RingAt(l)} | l in lists
        ensures RingAt(l)
      {
        RingOfOne(heads[l]);
        assert RingOf(heads[l], links, lists[l]) == [heads[l]];
      }
    }

    /** A page comes, with its link as `LIST_INIT` leaves it. */
    method AddPage(p: Page)
      requires Valid() && p !in loc
      modifies this`links, this`loc
      ensures Valid() && heads == old(heads) && links.Keys == old(links).Keys + {p} && fresh(links[p])
      ensures lists == old(lists) && loc == old(loc)[p := Nowhere]
    {
      hide *;
      ReprIs();
      var link := new ListHead<Page?>(p);
      Parts();
      AllRings();
      NewPageOk(lists, loc, p);
      OneMoreLink(heads, links, p, link);
      ghost var links0, loc0 := links, loc;
      links, loc := links[p := link], loc[p := Nowhere];
      SelfLinkedIs(link);
      Rebuilt(links0, loc0, p);
    }

    /** A page goes that is in no list. */
    method DropPage(p: Page)
      requires Valid() && p in loc && loc[p] == Nowhere
      modifies this`links, this`loc
      ensures Valid() && heads == old(heads) && links == old(links) - {p} && lists == old(lists)
      ensures loc == old(loc) - {p}
    {
      hide *;
      Parts();
      AllRings();
      OldPageOk(lists, loc, p);
      OneLinkLess(heads, links, p);
      ghost var links0, loc0 := links, loc;
      links, loc := links - {p}, loc - {p};
      Rebuilt(links0, loc0, p);
    }

    lemma AllRings()
      requires Valid()
      ensures LinksApart(heads, links) && ListsOk(lists, loc) && heads.Keys == lists.Keys && links.Keys == loc.Keys
      ensures forall l, q :: l in lists && q in lists[l] ==> q in links && q in loc && loc[q] == l
      ensures forall l {:trigger l in lists} :: l in lists ==> Ring(RingOf(heads[l], links, lists[l]))
      ensures forall q {:trigger q in loc} :: q in loc ==>
        links[q].owner == q && (loc[q] == Nowhere ==> SelfLinked(links[q]))
    {
      forall l | l in lists
        ensures Ring(RingOf(heads[l], links, lists[l]))
      {
        RingIs(l);
      }
      forall q | q in loc
        ensures links[q].owner == q && (loc[q] == Nowhere ==> SelfLinked(links[q]))
      {
        OwnLink(q);
      }
    }

    /** Page `p`, which is in no list, has come or gone; the rings are the same. */
    lemma Rebuilt(links0: map<Page, ListHead<Page?>>, loc0: map<Page, ListId>, p: Page)
      requires ListsOk(lists, loc) && heads.Keys == lists.Keys && links.Keys == loc.Keys && LinksApart(heads, links)
      requires links0.Keys == loc0.Keys && links - {p} == links0 - {p} && loc - {p} == loc0 - {p}
      requires p in loc ==> loc[p] == Nowhere && links[p].owner == p && SelfLinked(links[p])
      requires forall l, q :: l in lists && q in lists[l] ==> q in links0 && q != p
      requires forall l {:trigger l in lists} :: l in lists ==> Ring(RingOf(heads[l], links0, lists[l]))
      requires forall q {:trigger q in loc0} :: q in loc0 ==>
        links0[q].owner == q && (loc0[q] == Nowhere ==> SelfLinked(links0[q]))
      ensures Valid()
    {
      assert Shape();
      assert forall q :: q in links && q != p ==> q in links - {p} && (links - {p})[q] == links[q];
      assert forall q :: q in links0 && q != p ==> q in links0 - {p} && (links0 - {p})[q] == links0[q];
      assert forall q :: q in loc && q != p ==> q in loc - {p} && (loc - {p})[q] == loc[q];
      assert forall q :: q in loc0 && q != p ==> q in loc0 - {p} && (loc0 - {p})[q] == loc0[q];
      hide Ring, ListsOk, SelfLinked, Apart;
      forall l {:trigger RingAt(l)} | l in lists
        ensures RingAt(l)
      {
        SameRing(heads[l], links0, links, lists[l]);
      }
      forall q {:trigger LinkAt(q)} | q in loc
        ensures LinkAt(q)
      {
      }
    }

    ghost function Repr(): set<ListHead<Page?>>
      reads this
    {
      heads.Values + links.Values
    }

    ghost predicate Apart()
      reads this
    {
      LinksApart(heads, links)
    }

    ghost predicate Shape()
      reads this
    {
      ListsOk(lists, loc) && heads.Keys == lists.Keys && links.Keys == loc.Keys && Apart()
    }

    ghost predicate RingAt(l: ListId)
      requires Shape() && l in lists
      reads this, Repr()
    {
      Ring(RingOf(heads[l], links, lists[l]))
    }

    ghost predicate LinkAt(p: Page)
      requires Shape() && p in loc
      reads this, Repr()
    {
      links[p].owner == p && (loc[p] == Nowhere ==> SelfLinked(links[p]))
    }

    ghost predicate Valid()
      reads this, Repr()
    {
      && Shape()
      && (forall l {:trigger RingAt(l)} :: l in lists ==> RingAt(l))
      && (forall p {:trigger LinkAt(p)} :: p in loc ==> LinkAt(p))
    }

    /** What is in a ring. */
    lemma InRing(l: ListId, x: ListHead<Page?>)
      requires Shape() && l in lists && x in RingOf(heads[l], links, lists[l])
      ensures x in Repr() && (x == heads[l] || exists p :: p in lists[l] && p in links && links[p] == x)
    {
      var ring := RingOf(heads[l], links, lists[l]);
      var i :| 0 <= i < |ring| && ring[i] == x;
      if i > 0 {
        assert lists[l][i - 1] in lists[l] && links[lists[l][i - 1]] == x;
      }
    }

    /** A page that is not in a list has its link not in its ring. */
    lemma LinkIsFree(p: Page, l: ListId)
      requires Shape() && p in loc && l in lists && loc[p] != l
      ensures links[p] !in RingOf(heads[l], links, lists[l])
    {
      if links[p] in RingOf(heads[l], links, lists[l]) {
        InRing(l, links[p]);
        assert false;
      }
    }

    /** Two lists have no link in common. */
    lemma RingsApart(l: ListId, m: ListId)
      requires Shape() && l in lists && m in lists && l != m
      ensures forall x :: x in RingOf(heads[l], links, lists[l]) ==> x !in RingOf(heads[m], links, lists[m])
    {
      forall x | x in RingOf(heads[l], links, lists[l])
        ensures x !in RingOf(heads[m], links, lists[m])
      {
        InRing(l, x);
        if x in RingOf(heads[m], links, lists[m]) {
          InRing(m, x);
          assert false;
        }
      }
    }

    /** Where a page is in its ring. */
    lemma PlaceOf(p: Page) returns (i: nat)
      requires Shape() && p in loc && loc[p] != Nowhere
      ensures loc[p] in lists && i < |lists[loc[p]]| && lists[loc[p]][i] == p
      ensures Without(lists[loc[p]], p) == lists[loc[p]][..i] + lists[loc[p]][i + 1..]
    {
      WithoutOnce(lists[loc[p]], p);
      i := WithoutAt(lists[loc[p]], p);
    }

    lemma RingIs(l: ListId)
      requires Valid() && l in lists
      ensures Ring(RingOf(heads[l], links, lists[l]))
    {
      assert RingAt(l);
    }

    /** A page's link keeps its page, and is alone as long as it is in no list. */
    lemma OwnLink(p: Page)
      requires Valid() && p in loc
      ensures links[p].owner == p && (loc[p] == Nowhere ==> SelfLinked(links[p]))
    {
      assert LinkAt(p);
    }

    lemma Parts()
      requires Valid()
      ensures Shape() && ListsOk(lists, loc) && heads.Keys == lists.Keys && links.Keys == loc.Keys
      ensures forall p :: p in links ==> links[p] in Repr()
      ensures forall l :: l in lists ==> l.Exists() && l != Nowhere
    {
    }

    /** What is in other rings, and the links of other pages in no list, are away from ring `l` and page `p`. */
    lemma Away(p: Page, l: ListId)
      requires Valid() && p in loc && l in lists && (loc[p] == Nowhere || loc[p] == l)
      ensures forall m {:trigger m in lists} :: m in lists && m != l ==>
        var ring := RingOf(heads[m], links, lists[m]);
        Ring(ring) && forall x :: x in ring ==> x !in RingOf(heads[l], links, lists[l]) && x != links[p]
      ensures forall q {:trigger q in loc} :: q in loc ==> links[q].owner == q
      ensures forall q {:trigger q in loc} :: q in loc && q != p && loc[q] == Nowhere ==>
        SelfLinked(links[q]) && links[q] != links[p] && links[q] !in RingOf(heads[l], links, lists[l])
    {
      forall m | m in lists && m != l
        ensures Ring(RingOf(heads[m], links, lists[m]))
        ensures forall x :: x in RingOf(heads[m], links, lists[m]) ==>
          x !in RingOf(heads[l], links, lists[l]) && x != links[p]
      {
        RingIs(m);
        RingsApart(m, l);
        LinkIsFree(p, m);
      }
      forall q | q in loc
        ensures links[q].owner == q && (q != p && loc[q] == Nowhere ==>
          SelfLinked(links[q]) && links[q] != links[p] && links[q] !in RingOf(heads[l], links, lists[l]))
      {
        OwnLink(q);
        if q != p && loc[q] == Nowhere {
          LinkIsFree(q, l);
        }
      }
    }

    /** Everything but ring `l` and the link of page `p` is as it should be. */
    ghost predicate Elsewhere(p: Page, l: ListId)
      requires Shape()
      reads this, Repr()
    {
      && (forall m {:trigger m in lists} :: m in lists && m != l ==> Ring(RingOf(heads[m], links, lists[m])))
      && (forall q {:trigger q in loc} :: q in loc ==> links[q].owner == q)
      && (forall q {:trigger q in loc} :: q in loc && q != p && loc[q] == Nowhere ==> SelfLinked(links[q]))
    }

    /** The lists move on to what the rings hold by now. */
    ghost method Settle(l: ListId, p: Page, pages: seq<Page>, to: ListId)
      requires Shape() && l in lists && p in loc && ListsOk(lists[l := pages], loc[p := to])
      requires Elsewhere(p, l) && (forall q :: q in pages ==> q in links) && Ring(RingOf(heads[l], links, pages))
      requires to == Nowhere ==> SelfLinked(links[p])
      modifies this`lists, this`loc
      ensures Valid() && lists == old(lists)[l := pages] && loc == old(loc)[p := to]
    {
      hide ListsOk, Ring, RingOf, SelfLinked;
      ghost var lists0 := lists;
      lists, loc := lists[l := pages], loc[p := to];
      assert Shape();
      forall m {:trigger RingAt(m)} | m in lists
        ensures RingAt(m)
      {
        assert m != l ==> m in lists0 && lists[m] == lists0[m];
      }
      forall q {:trigger LinkAt(q)} | q in loc
        ensures LinkAt(q)
      {
      }
    }

    method PushLink(p: Page, l: ListId, ghost ring: seq<ListHead<Page?>>)
      requires Valid() && p in loc && l in lists && loc[p] == Nowhere && ring == RingOf(heads[l], links, lists[l])
      modifies Repr()`prev, Repr()`next
      ensures Shape() && Elsewhere(p, l) && Ring(ring + [links[p]])
    {
      hide *;
      Parts();
      RingIs(l);
      OwnLink(p);
      LinkIsFree(p, l);
      LastOf(l, ring);
      Away(p, l);
      SelfLinkedIs(links[p]);
      Push(heads[l], links[p], ring);
      forall m {:trigger m in lists} | m in lists && m != l
        ensures Ring(RingOf(heads[m], links, lists[m]))
      {
        assert old(Ring(RingOf(heads[m], links, lists[m])));
      }
      Still(p, l);
    }

    method RemoveLink(p: Page, ghost ring: seq<ListHead<Page?>>, ghost i: nat)
      requires Valid() && p in loc && loc[p] != Nowhere && loc[p] in lists
      requires ring == RingOf(heads[loc[p]], links, lists[loc[p]]) && 1 <= i < |ring| && ring[i] == links[p]
      modifies Repr()`prev, Repr()`next
      ensures Shape() && Elsewhere(p, loc[p]) && Ring(ring[..i] + ring[i + 1..]) && SelfLinked(links[p])
    {
      hide *;
      Parts();
      RingIs(loc[p]);
      LastOf(loc[p], ring);
      Neighbours(ring, i);
      Away(p, loc[p]);
      Remove(links[p], ring, i);
      SelfLinkedIs(links[p]);
      forall m {:trigger m in lists} | m in lists && m != loc[p]
        ensures Ring(RingOf(heads[m], links, lists[m]))
      {
        assert old(Ring(RingOf(heads[m], links, lists[m])));
      }
      Still(p, loc[p]);
    }

    lemma SelfLinkedIs(x: ListHead<Page?>)
      ensures SelfLinked(x) <==> x.prev == x.next == x
    {
    }

    lemma Still(p: Page, l: ListId)
      requires Shape()
      requires forall m {:trigger m in lists} :: m in lists && m != l ==> Ring(RingOf(heads[m], links, lists[m]))
      requires forall q {:trigger q in loc} :: q in loc ==> links[q].owner == q
      requires forall q {:trigger q in loc} :: q in loc && q != p && loc[q] == Nowhere ==> SelfLinked(links[q])
      ensures Elsewhere(p, l)
    {
    }

    /** `list_push` of a page's link. */
    method Link(p: Page, l: ListId)
      requires Valid() && p in loc && loc[p] == Nowhere && l in lists
      modifies this`lists, this`loc, Repr()`prev, Repr()`next
      ensures Valid() && heads == old(heads) && links == old(links)
      ensures lists == LinkedAtEnd(old(lists), l, p) && loc == old(loc)[p := l]
    {
      hide *;
      Parts();
      LinkedOk(lists, loc, l, p);
      ghost var ring := RingOf(heads[l], links, lists[l]);
      PushLink(p, l, ring);
      RingLonger(heads[l], links, lists[l], p);
      LinkedIs(l, p);
      Settle(l, p, lists[l] + [p], l);
    }

    lemma LastOf(l: ListId, ring: seq<ListHead<Page?>>)
      requires Shape() && l in lists && ring == RingOf(heads[l], links, lists[l]) && Ring(ring)
      ensures ring[0] == heads[l] && heads[l] in ring && heads[l].prev in ring
      ensures forall x :: x in ring ==> x in Repr()
      ensures forall p :: p in lists[l] ==> p in links
    {
      forall x | x in ring
        ensures x in Repr()
      {
        InRing(l, x);
      }
    }

    lemma RingLonger(head: ListHead<Page?>, links: map<Page, ListHead<Page?>>, pages: seq<Page>, p: Page)
      requires (forall q :: q in pages ==> q in links) && p in links
      ensures RingOf(head, links, pages + [p]) == RingOf(head, links, pages) + [links[p]]
    {
    }

    lemma LinkedIs(l: ListId, p: Page)
      requires l in lists
      ensures LinkedAtEnd(lists, l, p) == lists[l := lists[l] + [p]]
      ensures p in loc && loc[p] != Nowhere && loc[p] == l ==> Unlinked(lists, l, p) == lists[l := Without(lists[l], p)]
    {
    }

    /** `list_remove` of a page's link. */
    method Unlink(p: Page)
      requires Valid() && p in loc && loc[p] != Nowhere
      modifies this`lists, this`loc, Repr()`prev, Repr()`next
      ensures Valid() && heads == old(heads) && links == old(links)
      ensures old(loc[p]) in old(lists) && lists == Unlinked(old(lists), old(loc[p]), p)
      ensures loc == old(loc)[p := Nowhere]
    {
      hide *;
      Parts();
      ghost var l := loc[p];
      ghost var i := PlaceOf(p);
      UnlinkedOk(lists, loc, p);
      ghost var ring := RingOf(heads[l], links, lists[l]);
      RemoveLink(p, ring, i + 1);
      RingShorter(heads[l], links, lists[l], i);
      LinkedIs(l, p);
      Settle(l, p, Without(lists[l], p), Nowhere);
    }

    lemma Neighbours(ring: seq<ListHead<Page?>>, i: nat)
      requires Ring(ring) && i < |ring|
      ensures ring[i] in ring && ring[i].prev in ring && ring[i].next in ring
    {
    }

    lemma RingShorter(head: ListHead<Page?>, links: map<Page, ListHead<Page?>>, pages: seq<Page>, i: nat)
      requires (forall q :: q in pages ==> q in links) && i < |pages|
      ensures forall q :: q in pages[..i] + pages[i + 1..] ==> q in links
      ensures var ring := RingOf(head, links, pages);
        RingOf(head, links, pages[..i] + pages[i + 1..]) == ring[..i + 1] + ring[i + 2..]
    {
    }

    /** `list_is_empty` of a list, and its first page by `container_of`. */
    method First(l: ListId) returns (p: Page?)
      requires Valid() && l in lists
      ensures p == if lists[l] == [] then null else lists[l][0]
    {
      RingIs(l);
      ghost var ring := RingOf(heads[l], links, lists[l]);
      assert ring[0].next == if |ring| > 1 then ring[1] else ring[0];
      assert |ring| > 1 ==> ring[1] != ring[0];
      if heads[l].next == heads[l] {
        return null;
      }
      p := heads[l].next.owner;
      assert lists[l][0] in lists[l];
      OwnLink(lists[l][0]);
    }

    /** The page after a page in its list, as the loop of `alloc_generic` goes on; null at the end. */
    method Next(p: Page, l: ListId) returns (q: Page?)
      requires Valid() && p in loc && loc[p] == l != Nowhere
      ensures l in lists
      ensures exists i :: (0 <= i < |lists[l]| && lists[l][i] == p
                           && q == if i + 1 < |lists[l]| then lists[l][i + 1] else null)
    {
      ghost var i := PlaceOf(p);
      RingIs(l);
      ghost var ring := RingOf(heads[l], links, lists[l]);
      assert ring[i + 1] == links[p];
      assert ring[i + 1].next == if i + 2 < |ring| then ring[i + 2] else ring[0];
      if i + 1 < |lists[l]| {
        assert ring[i + 2] == links[lists[l][i + 1]] && lists[l][i + 1] in lists[l];
        OwnLink(lists[l][i + 1]);
      }
      if links[p].next == heads[l] {
        q := null;
      } else {
        q := links[p].next.owner;
      }
    }

    /** The test of `page_free`, whether a page is the only one of its class. */
    method IsSole(p: Page) returns (sole: bool)
      requires Valid() && p in loc && loc[p] != Nowhere
      ensures loc[p] in lists && (sole <==> lists[loc[p]] == [p])
    {
      ghost var i := PlaceOf(p);
      RingIs(loc[p]);
      ghost var ring := RingOf(heads[loc[p]], links, lists[loc[p]]);
      assert ring[i + 1] == links[p];
      assert ring[i + 1].prev == ring[i];
      assert ring[i + 1].next == if i + 2 < |ring| then ring[i + 2] else ring[0];
      sole := links[p].prev == links[p].next;
    }

    /** `list_is_empty` of a page's own link: the test of `segment_free`. */
    method IsUnlinked(p: Page) returns (alone: bool)
      requires Valid() && p in loc
      ensures alone <==> loc[p] == Nowhere
    {
      OwnLink(p);
      if loc[p] != Nowhere {
        ghost var i := PlaceOf(p);
        RingIs(loc[p]);
        ghost var ring := RingOf(heads[loc[p]], links, lists[loc[p]]);
        assert ring[i + 1] == links[p] && ring[i + 1].prev == ring[i];
      }
      alone := links[p].prev == links[p];
    }
  }

  lemma {:induction false} WithoutAt(s: seq<Page>, p: Page) returns (i: nat)
    requires p in s
    ensures i < |s| && s[i] == p && Without(s, p) == s[..i] + s[i + 1..]
  {
    if s[0] == p {
      i := 0;
    } else {
      var j := WithoutAt(s[1..], p);
      i := j + 1;
      assert s[..i] == [s[0]] + s[1..][..j] && s[i + 1..] == s[1..][j + 1..];
    }
  }
}
