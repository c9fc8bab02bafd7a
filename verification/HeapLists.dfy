/** The lists that hold the pages of a heap, and the number of pages that are in use. */
module HeapLists {

  /** `unused_pages`, one of `pages`, `full_pages`, or no list at all. */
  datatype ListId = Unused | Class(c: nat) | Full | Nowhere {
    predicate Exists() { this != Nowhere && (Class? ==> c < 18) }
  }

  function AllLists(): (r: set<ListId>)
    ensures forall l: ListId :: l in r <==> l.Exists()
  {
    var r := {Unused, Full} + set c: nat | c < 18 :: Class(c);
    assert forall l: ListId :: l.Class? ==> l == Class(l.c);
    r
  }

  /** Every page is in the list that `loc` says, once, and in no other. */
  ghost predicate ListsOk<P>(lists: map<ListId, seq<P>>, loc: map<P, ListId>) {
    && (forall l: ListId {:trigger l in lists} :: l.Exists() <==> l in lists)
    && (forall l, p {:trigger p in lists[l]} :: l in lists && p in lists[l] ==> p in loc && loc[p] == l)
    && (forall p :: p in loc && loc[p] != Nowhere ==> loc[p] in lists && Once(lists[loc[p]], p))
  }

  ghost predicate Once<P>(s: seq<P>, p: P) {
    multiset(s)[p] == 1
  }

  function Without<P(==)>(s: seq<P>, p: P): (r: seq<P>)
    ensures multiset(r) == multiset(s) - multiset{p}
    ensures p !in s ==> r == s
    ensures p in s ==> |r| == |s| - 1
  {
    if s == [] then []
    else
      assert s == [s[0]] + s[1..];
      if s[0] == p then s[1..] else [s[0]] + Without(s[1..], p)
  }

  function Unlinked<P(==)>(lists: map<ListId, seq<P>>, l: ListId, p: P): map<ListId, seq<P>>
    requires l in lists
  {
    lists[l := Without(lists[l], p)]
  }

  function LinkedAtEnd<P>(lists: map<ListId, seq<P>>, l: ListId, p: P): map<ListId, seq<P>>
    requires l in lists
  {
    lists[l := lists[l] + [p]]
  }

  lemma WithoutOnce<P>(s: seq<P>, p: P)
    requires Once(s, p)
    ensures p in s && p !in Without(s, p)
    ensures forall q :: q in Without(s, p) ==> q in s
    ensures forall q :: q != p && Once(s, q) ==> Once(Without(s, p), q)
  {
    var r := Without(s, p);
    forall q | q in r
      ensures q in s && q != p
    {
      assert q in multiset(r);
    }
  }

  lemma AppendOnce<P>(s: seq<P>, p: P)
    requires p !in s
    ensures Once(s + [p], p) && forall q :: Once(s, q) ==> Once(s + [p], q)
  {
  }

  lemma UnlinkedOk<P>(lists: map<ListId, seq<P>>, loc: map<P, ListId>, p: P)
    requires ListsOk(lists, loc) && p in loc && loc[p] != Nowhere
    ensures loc[p] in lists && p in lists[loc[p]]
    ensures ListsOk(Unlinked(lists, loc[p], p), loc[p := Nowhere])
  {
    WithoutOnce(lists[loc[p]], p);
    hide Once, Without;
  }

  lemma LinkedOk<P>(lists: map<ListId, seq<P>>, loc: map<P, ListId>, l: ListId, p: P)
    requires ListsOk(lists, loc) && p in loc && loc[p] == Nowhere && l.Exists()
    ensures l in lists && ListsOk(LinkedAtEnd(lists, l, p), loc[p := l])
  {
    AppendOnce(lists[l], p);
    hide Once;
  }

  lemma Member<P>(lists: map<ListId, seq<P>>, loc: map<P, ListId>, l: ListId, p: P)
    requires ListsOk(lists, loc) && l in lists
    ensures p in lists[l] <==> p in loc && loc[p] == l
  {
    assert p in loc && loc[p] == l ==> Once(lists[l], p);
  }

  /** Only one page is in the list exactly when it has no other neighbour than the head. */
  lemma Sole<P>(lists: map<ListId, seq<P>>, loc: map<P, ListId>, l: ListId, p: P)
    requires ListsOk(lists, loc) && l in lists && p in lists[l]
    ensures |lists[l]| == 1 ==> lists[l] == [p] && Without(lists[l], p) == []
    ensures |lists[l]| > 1 ==> Without(lists[l], p) != []
  {
    assert |multiset(lists[l])| == |lists[l]|;
    assert |multiset(lists[l]) - multiset{p}| == |lists[l]| - 1;
    assert |multiset(Without(lists[l], p))| == |Without(lists[l], p)|;
  }

  // ----- how many pages of a segment are in use

  ghost predicate InUse<P>(loc: map<P, ListId>, p: P) {
    !(p in loc && loc[p] == Unused)
  }

  ghost function UsedCount<P>(pages: seq<P>, loc: map<P, ListId>): nat {
    if pages == [] then 0 else UsedCount(pages[1..], loc) + if InUse(loc, pages[0]) then 1 else 0
  }

  ghost predicate Distinct<P>(pages: seq<P>) {
    forall i, j :: 0 <= i < j < |pages| ==> pages[i] != pages[j]
  }

  lemma {:induction false} SameCount<P>(pages: seq<P>, loc: map<P, ListId>, loc': map<P, ListId>)
    requires forall p :: p in pages ==> (InUse(loc, p) <==> InUse(loc', p))
    ensures UsedCount(pages, loc) == UsedCount(pages, loc')
  {
    if pages != [] {
      SameCount(pages[1..], loc, loc');
    }
  }

  /** Taking one page into use adds one. */
  lemma {:induction false} OneMoreUsed<P>(pages: seq<P>, loc: map<P, ListId>, loc': map<P, ListId>, p: P)
    requires Distinct(pages) && p in pages && !InUse(loc, p) && InUse(loc', p)
    requires forall q :: q in pages && q != p ==> (InUse(loc, q) <==> InUse(loc', q))
    ensures UsedCount(pages, loc') == UsedCount(pages, loc) + 1
  {
    if pages[0] == p {
      assert forall i :: 0 <= i < |pages| - 1 ==> pages[1..][i] == pages[i + 1];
      SameCount(pages[1..], loc, loc');
    } else {
      OneMoreUsed(pages[1..], loc, loc', p);
    }
  }

  /** If no page is in use, all are unused. */
  lemma {:induction false} NoneUsed<P>(pages: seq<P>, loc: map<P, ListId>)
    ensures UsedCount(pages, loc) == 0 <==> forall p :: p in pages ==> !InUse(loc, p)
  {
    if pages != [] {
      NoneUsed(pages[1..], loc);
      assert pages == [pages[0]] + pages[1..];
    }
  }

  /** What a page that goes to another list does to the count. */
  lemma CountAfter<P>(pages: seq<P>, loc: map<P, ListId>, x: P, to: ListId)
    requires Distinct(pages) && x in pages && x in loc
    ensures UsedCount(pages, loc[x := to]) == UsedCount(pages, loc)
            + (if loc[x] == Unused && to != Unused then 1 else if loc[x] != Unused && to == Unused then -1 else 0)
  {
    if loc[x] == Unused && to != Unused {
      OneMoreUsed(pages, loc, loc[x := to], x);
    } else if loc[x] != Unused && to == Unused {
      OneMoreUsed(pages, loc[x := to], loc, x);
    } else {
      SameCount(pages, loc, loc[x := to]);
    }
  }

  lemma DistinctIfOnce<P>(s: seq<P>)
    requires forall p :: p in s ==> Once(s, p)
    ensures Distinct(s)
  {
    forall i, j | 0 <= i < j < |s|
      ensures s[i] != s[j]
    {
      assert Once(s, s[i]);
      assert s == s[..i] + [s[i]] + s[i + 1..j] + [s[j]] + s[j + 1..];
    }
  }

  lemma ListOnce<P>(lists: map<ListId, seq<P>>, loc: map<P, ListId>, l: ListId)
    requires ListsOk(lists, loc) && l in lists && l != Nowhere
    ensures Distinct(lists[l]) && forall j :: 0 <= j < |lists[l]| ==> lists[l][j] in loc && loc[lists[l][j]] == l
  {
    DistinctIfOnce(lists[l]);
    assert forall j :: 0 <= j < |lists[l]| ==> lists[l][j] in lists[l];
  }

  /** A new page, in no list yet. */
  lemma NewPageOk<P>(lists: map<ListId, seq<P>>, loc: map<P, ListId>, p: P)
    requires ListsOk(lists, loc) && p !in loc
    ensures ListsOk(lists, loc[p := Nowhere])
  {
  }
}
