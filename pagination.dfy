/** The page navigation of the archive and URL listings
    (src/components/pagination.tsx): which items are rendered for a current
    page and a page count. Links are identified by the page they lead to. */
module Pagination {

  datatype PageItem =
    | Previous(enabled: bool, target: int) // `href` is `<base>/<target>`, or `#` when disabled
    | PageLink(page: int, active: bool)
    | Ellipsis
    | Next(enabled: bool, target: int)

  function If(c: bool, items: seq<PageItem>): seq<PageItem> {
    if c then items else []
  }

  /** The links and ellipsis rendered before the current page. */
  function Leading(c: int): seq<PageItem> {
    If(c > 2, [PageLink(1, false)]) + If(c > 3, [Ellipsis]) + If(c > 1, [PageLink(c - 1, false)])
  }

  /** The links and ellipsis rendered after the current page. */
  function Trailing(c: int, t: int): seq<PageItem> {
    If(c < t, [PageLink(c + 1, false)]) + If(c < t - 2, [Ellipsis]) + If(c < t - 1, [PageLink(t, false)])
  }

  /** The items between Previous and Next. */
  function Middle(c: int, t: int): seq<PageItem> {
    Leading(c) + [PageLink(c, true)] + Trailing(c, t)
  }

  /** The items rendered for current page `c` of `t`, in order. */
  function Items(c: int, t: int): seq<PageItem> {
    [Previous(c > 1, c - 1)] + Middle(c, t) + [Next(c < t, c + 1)]
  }

  datatype Rendered = Nothing | Nav(items: seq<PageItem>)

  /** `Pagination({ currentPage, totalPages })` */
  function Pagination(c: int, t: int): Rendered {
    if t <= 1 then Nothing else Nav(Items(c, t))
  }

  /** The current page is rendered, and it is the only item marked active. */
  lemma ActiveItem(c: int, t: int, x: PageItem)
    requires t > 1
    ensures PageLink(c, true) in Pagination(c, t).items
    ensures x in Pagination(c, t).items && x.PageLink? && x.active ==> x == PageLink(c, true)
  {
    ItemsMembers(c, t, x);
    ItemsMembers(c, t, PageLink(c, true));
    PassiveSides(c, t, x);
  }

  lemma ItemsMembers(c: int, t: int, x: PageItem)
    ensures x in Items(c, t) <==>
              x == Previous(c > 1, c - 1) || x in Leading(c) || x == PageLink(c, true) ||
              x in Trailing(c, t) || x == Next(c < t, c + 1)
  {
  }

  /** No link before or after the current page is marked active. */
  lemma PassiveSides(c: int, t: int, x: PageItem)
    ensures x in Leading(c) ==> x.PageLink? ==> !x.active
    ensures x in Trailing(c, t) ==> x.PageLink? ==> !x.active
  {
    LeadingCases(c);
    TrailingCases(c, t);
  }

  /** Nothing is rendered exactly when there is at most one page. */
  lemma NothingIff(c: int, t: int)
    ensures Pagination(c, t).Nothing? <==> t <= 1
  {
  }

  /** The first item is Previous, enabled exactly when there is an earlier page,
      and the last is Next, enabled exactly when there is a later page; each
      leads one page away, and everything between is a page link or an ellipsis. */
  lemma PrevNext(c: int, t: int)
    requires t > 1
    ensures Pagination(c, t).items == [Previous(c > 1, c - 1)] + Middle(c, t) + [Next(c < t, c + 1)]
    ensures forall x :: x in Middle(c, t) ==> x.PageLink? || x.Ellipsis?
  {
    LeadingCases(c);
    TrailingCases(c, t);
  }

  /** The page links between Previous and Next, in order. */
  function Pages(items: seq<PageItem>): seq<int> {
    if items == [] then []
    else (if items[0].PageLink? then [items[0].page] else []) + Pages(items[1..])
  }

  /** For a current page inside the range, the pages shown are exactly the
      first, the last, and those next to the current one, in increasing order. */
  lemma PagesShown(c: int, t: int, p: int)
    requires 1 <= c <= t && t > 1
    ensures var ps := Pages(Pagination(c, t).items);
            && Increasing(ps)
            && (p in ps <==> 1 <= p <= t && (p == 1 || p == t || c - 1 <= p <= c + 1))
  {
    PagesOfItems(c, t);
    ShownSpec(c, t, p);
  }

  /** The page numbers `Pages` yields, written out. */
  function Shown(c: int, t: int): seq<int> {
    If2(c > 2, 1) + If2(c > 1, c - 1) + [c] + If2(c < t, c + 1) + If2(c < t - 1, t)
  }

  lemma ShownSpec(c: int, t: int, p: int)
    requires 1 <= c <= t && t > 1
    ensures Increasing(Shown(c, t))
    ensures p in Shown(c, t) <==> 1 <= p <= t && (p == 1 || p == t || c - 1 <= p <= c + 1)
  {
    var lo := If2(c > 2, 1) + If2(c > 1, c - 1);
    var hi := If2(c < t, c + 1) + If2(c < t - 1, t);
    assert Shown(c, t) == lo + [c] + hi;
    LowSpec(c, p);
    HighSpec(c, t, p);
    Increasing3(lo, c, hi);
    assert p in Shown(c, t) <==> p in lo || p == c || p in hi;
  }

  lemma LowSpec(c: int, p: int)
    requires 1 <= c
    ensures var lo := If2(c > 2, 1) + If2(c > 1, c - 1);
            && |lo| <= 2 && Increasing(lo)
            && (forall x :: x in lo ==> x < c)
            && (p in lo <==> (c > 2 && p == 1) || (c > 1 && p == c - 1))
  {
  }

  lemma HighSpec(c: int, t: int, p: int)
    requires c <= t
    ensures var hi := If2(c < t, c + 1) + If2(c < t - 1, t);
            && |hi| <= 2 && Increasing(hi)
            && (forall x :: x in hi ==> c < x)
            && (p in hi <==> (c < t && p == c + 1) || (c < t - 1 && p == t))
  {
  }

  ghost predicate Increasing(s: seq<int>) {
    forall i, j :: 0 <= i < j < |s| ==> s[i] < s[j]
  }

  lemma Increasing3(lo: seq<int>, c: int, hi: seq<int>)
    requires |lo| <= 2 && |hi| <= 2
    requires Increasing(lo) && Increasing(hi)
    requires forall x :: x in lo ==> x < c
    requires forall x :: x in hi ==> c < x
    ensures Increasing(lo + [c] + hi)
  {
    var s := lo + [c] + hi;
    forall i, j | 0 <= i < j < |s| ensures s[i] < s[j] {
      if j < |lo| {
        assert s[i] == lo[i] && s[j] == lo[j];
      } else if i < |lo| {
        assert s[i] in lo;
        if j > |lo| {
          assert s[j] == hi[j - |lo| - 1];
          assert s[j] in hi;
        }
      } else if i == |lo| {
        assert s[j] == hi[j - |lo| - 1];
        assert s[j] in hi;
      } else {
        assert s[i] == hi[i - |lo| - 1] && s[j] == hi[j - |lo| - 1];
      }
    }
  }

  function If2(b: bool, x: int): seq<int> { if b then [x] else [] }

  lemma {:induction false} PagesAppend(a: seq<PageItem>, b: seq<PageItem>)
    ensures Pages(a + b) == Pages(a) + Pages(b)
    decreases |a|
  {
    if a == [] {
      assert a + b == b;
    } else {
      assert (a + b)[1..] == a[1..] + b;
      PagesAppend(a[1..], b);
    }
  }

  lemma PagesSingle(x: PageItem)
    ensures Pages([x]) == if x.PageLink? then [x.page] else []
  {
    assert [x][1..] == [];
  }

  lemma PagesOfTwo(x: PageItem, y: PageItem)
    ensures Pages([x, y]) == Pages([x]) + Pages([y])
  {
    PagesAppend([x], [y]);
    assert [x] + [y] == [x, y];
  }

  lemma LeadingPages(c: int)
    ensures Pages(Leading(c)) == If2(c > 2, 1) + If2(c > 1, c - 1)
  {
    if c > 3 {
      assert Leading(c) == [PageLink(1, false)] + [Ellipsis, PageLink(c - 1, false)];
      PagesAppend([PageLink(1, false)], [Ellipsis, PageLink(c - 1, false)]);
      PagesOfTwo(Ellipsis, PageLink(c - 1, false));
    } else if c > 2 {
      assert Leading(c) == [PageLink(1, false), PageLink(c - 1, false)];
      PagesOfTwo(PageLink(1, false), PageLink(c - 1, false));
    } else if c > 1 {
      assert Leading(c) == [PageLink(c - 1, false)];
    } else {
      assert Leading(c) == [];
    }
  }

  lemma TrailingPages(c: int, t: int)
    ensures Pages(Trailing(c, t)) == If2(c < t, c + 1) + If2(c < t - 1, t)
  {
    if c < t - 2 {
      assert Trailing(c, t) == [PageLink(c + 1, false)] + [Ellipsis, PageLink(t, false)];
      PagesAppend([PageLink(c + 1, false)], [Ellipsis, PageLink(t, false)]);
      PagesOfTwo(Ellipsis, PageLink(t, false));
    } else if c < t - 1 {
      assert Trailing(c, t) == [PageLink(c + 1, false), PageLink(t, false)];
      PagesOfTwo(PageLink(c + 1, false), PageLink(t, false));
    } else if c < t {
      assert Trailing(c, t) == [PageLink(c + 1, false)];
    } else {
      assert Trailing(c, t) == [];
    }
  }

  lemma PagesOfItems(c: int, t: int)
    ensures Pages(Items(c, t)) == Shown(c, t)
  {
    var l, m, r := Leading(c), [PageLink(c, true)], Trailing(c, t);
    var prev, next := [Previous(c > 1, c - 1)], [Next(c < t, c + 1)];
    LeadingPages(c);
    TrailingPages(c, t);
    PagesAppend(l, m);
    PagesAppend(l + m, r);
    PagesSingle(PageLink(c, true));
    PagesSingle(Previous(c > 1, c - 1));
    PagesSingle(Next(c < t, c + 1));
    PagesAppend(prev, Middle(c, t));
    PagesAppend(prev + Middle(c, t), next);
  }

  lemma LeadingCases(c: int)
    ensures Leading(c) == if c > 3 then [PageLink(1, false), Ellipsis, PageLink(c - 1, false)]
                          else if c > 2 then [PageLink(1, false), PageLink(c - 1, false)]
                          else if c > 1 then [PageLink(c - 1, false)]
                          else []
  {
  }

  lemma TrailingCases(c: int, t: int)
    ensures Trailing(c, t) == if c < t - 2 then [PageLink(c + 1, false), Ellipsis, PageLink(t, false)]
                              else if c < t - 1 then [PageLink(c + 1, false), PageLink(t, false)]
                              else if c < t then [PageLink(c + 1, false)]
                              else []
  {
  }

  /** An ellipsis stands exactly for hidden pages: the leading one sits between
      page 1 and page `c - 1` when pages lie hidden between them, the trailing
      one between `c + 1` and `t` likewise, and there is no other. */
  lemma EllipsisIff(c: int, t: int)
    requires 1 <= c <= t && t > 1
    ensures Ellipsis in Pagination(c, t).items <==> c - 1 > 2 || c + 1 < t - 1
    ensures Ellipsis in Leading(c) <==> c - 1 > 2
    ensures c - 1 > 2 ==> Leading(c) == [PageLink(1, false), Ellipsis, PageLink(c - 1, false)]
    ensures Ellipsis in Trailing(c, t) <==> c + 1 < t - 1
    ensures c + 1 < t - 1 ==> Trailing(c, t) == [PageLink(c + 1, false), Ellipsis, PageLink(t, false)]
  {
    LeadingCases(c);
    TrailingCases(c, t);
  }
}
