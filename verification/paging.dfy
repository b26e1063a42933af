/**
 * Menu pagination of handlers.py: `paginate_items`, the conditions for the
 * back and forward buttons, and the page arithmetic of the navigation
 * callbacks. Pages are numbered from 1; the session's page number is an
 * unbounded Python `int`, so slicing follows Python's rules for negative
 * indices.
 */
module Paging {

  /** `ITEMS_PER_PAGE`. */
  const ItemsPerPage: nat := 6

  function Min(a: int, b: int): int { if a <= b then a else b }

  /** Where a Python slice bound `k` lands in a sequence of length `n`: negative bounds count from the end; both are clamped. */
  function SliceBound(k: int, n: nat): (r: nat)
    ensures r <= n
    ensures 0 <= k ==> r == Min(k, n)
  {
    if k < 0 then (if k + n < 0 then 0 else k + n) else Min(k, n)
  }

  /** `s[i:j]` in Python. */
  function PySlice<T>(s: seq<T>, i: int, j: int): (r: seq<T>)
    ensures 0 <= i <= j ==> r == s[Min(i, |s|)..Min(j, |s|)]
    ensures j == 0 ==> r == []
    ensures i <= j ==> |r| <= j - i
  {
    var a, b := SliceBound(i, |s|), SliceBound(j, |s|);
    if a <= b then
      assert i <= j ==> b - a <= j - i by {
        if i < 0 && 0 <= j { assert a >= 0 && b <= j; }
      }
      s[a..b]
    else []
  }

  /** `paginate_items(items, page)`: the items shown on `page` and the total count. */
  function Paginate<T>(items: seq<T>, page: int): (r: (seq<T>, nat))
    ensures r.1 == |items|
    ensures |r.0| <= ItemsPerPage
    ensures page >= 1 ==> r.0 == items[Min((page - 1) * ItemsPerPage, |items|)..Min(page * ItemsPerPage, |items|)]
  {
    var start := (page - 1) * ItemsPerPage;
    (PySlice(items, start, start + ItemsPerPage), |items|)
  }

  /** The "back" button is offered. */
  predicate HasBack(page: int) {
    page > 1
  }

  /** The "forward" button is offered. */
  predicate HasForward(page: int, total: nat) {
    page * ItemsPerPage < total
  }

  /** `page_prev`: one page back, never below the first. */
  function PagePrev(page: int): (r: int)
    ensures r >= 1
    ensures HasBack(page) ==> r == page - 1
    ensures !HasBack(page) ==> r == 1
  {
    if page - 1 < 1 then 1 else page - 1
  }

  /** `page_next`: one page forward. */
  function PageNext(page: int): (r: int)
    ensures r == page + 1
  {
    page + 1
  }

  /** `subs_paginate_callback`: the callback data moves the page by one either way; any other data keeps it. */
  function SubsPageStep(page: int, data: string): (r: int)
    ensures data == "subs_page_prev" ==> r == page - 1
    ensures data == "subs_page_next" ==> r == page + 1
    ensures data != "subs_page_prev" && data != "subs_page_next" ==> r == page
  {
    if data == "subs_page_prev" then page - 1
    else if data == "subs_page_next" then page + 1
    else page
  }

  /** The number of pages needed for `total` items: the forward button leads through exactly these. */
  function PageCount(total: nat): nat {
    (total + ItemsPerPage - 1) / ItemsPerPage
  }

  /** Pages 1..k, one after another. */
  function FirstPages<T>(items: seq<T>, k: nat): seq<T> {
    if k == 0 then [] else FirstPages(items, k - 1) + Paginate(items, k).0
  }

  // ---------------------------------------------------------------------------
  // Properties

  /** The first k pages are exactly the first 6k items: no item is skipped or repeated. */
  lemma {:induction false} FirstPagesArePrefix<T>(items: seq<T>, k: nat)
    ensures FirstPages(items, k) == items[..Min(k * ItemsPerPage, |items|)]
  {
    if k > 0 {
      FirstPagesArePrefix(items, k - 1);
      var a, b := Min((k - 1) * ItemsPerPage, |items|), Min(k * ItemsPerPage, |items|);
      assert items[..a] + items[a..b] == items[..b];
    }
  }

  /** Reading every page from the first to the last gives back the whole list, in order. */
  lemma PagesReassemble<T>(items: seq<T>)
    ensures FirstPages(items, PageCount(|items|)) == items
  {
    var k := PageCount(|items|);
    FirstPagesArePrefix(items, k);
    assert k * ItemsPerPage >= |items|;
  }

  /** On a real page the forward button is offered exactly when a later page exists, and the next page is then non-empty. */
  lemma ForwardIffMorePages<T>(items: seq<T>, page: int)
    requires page >= 1
    ensures HasForward(page, |items|) <==> page < PageCount(|items|)
    ensures HasForward(page, |items|) <==> Paginate(items, page + 1).0 != []
  {
  }

  /** The back button is offered exactly when pressing it changes the page. */
  lemma BackIffPrevMoves(page: int)
    requires page >= 1
    ensures HasBack(page) <==> PagePrev(page) < page
  {
  }

  /** In the project menu forward and back undo each other, except that "back" is clamped at page 1. */
  lemma NextThenPrev(page: int)
    ensures page >= 1 ==> PagePrev(PageNext(page)) == page
    ensures page >= 2 ==> PageNext(PagePrev(page)) == page
    ensures page < 2 ==> PageNext(PagePrev(page)) == 2
  {
  }

  /** In the subscription menu the two callbacks undo each other in either order, on every page. */
  lemma SubsStepsUndo(page: int)
    ensures SubsPageStep(SubsPageStep(page, "subs_page_next"), "subs_page_prev") == page
    ensures SubsPageStep(SubsPageStep(page, "subs_page_prev"), "subs_page_next") == page
  {
  }

  /** The subscription menu has no lower bound: from page 1 a "subs_page_prev" callback reaches page 0, which shows nothing. */
  lemma PageZeroShowsNothing<T>(items: seq<T>)
    ensures SubsPageStep(1, "subs_page_prev") == 0
    ensures Paginate(items, 0).0 == []
    ensures !HasBack(0) && (HasForward(0, |items|) <==> items != [])
  {
  }
}
