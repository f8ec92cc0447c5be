/** The bare-bones pager of Pager.php: it works out how many pages a result
    set needs, clamps the requested page, finds the previous and next pages
    and a window of page numbers around the current one, and renders that
    window as HTML links. */
module Paging {

  import opened Wrappers
  import opened Text

  /** `_normalizePage`: the page number clamped to at least 1 and, when the
      page count is positive, to at most the page count. */
  function NormalizePage(pageNumber: int, pageCount: int): (r: int)
    ensures r >= 1
    ensures pageCount > 0 ==> r <= pageCount
    // a page already in range is kept as it is
    ensures 1 <= pageNumber && (pageCount <= 0 || pageNumber <= pageCount) ==> r == pageNumber
    // otherwise the nearest page in range is taken
    ensures pageCount > 0 ==>
      forall q :: 1 <= q <= pageCount ==> Dist(r, pageNumber) <= Dist(q, pageNumber)
  {
    var p := if pageNumber < 1 then 1 else pageNumber;
    if pageCount > 0 && p > pageCount then pageCount else p
  }

  function Dist(a: int, b: int): nat { if a < b then b - a else a - b }

  /** Clamping twice is clamping once. */
  lemma NormalizePageIdempotent(pageNumber: int, pageCount: int)
    ensures NormalizePage(NormalizePage(pageNumber, pageCount), pageCount)
         == NormalizePage(pageNumber, pageCount)
  {
  }

  /** PHP `(integer) ceil(a / b)` for positive integers: the least r with
      a <= r * b. */
  function CeilDiv(a: nat, b: nat): (r: nat)
    requires b >= 1
    ensures a >= 1 ==> r >= 1
  {
    (a + b - 1) / b
  }

  /** CeilDiv is the ceiling of the quotient: the least r with a <= r * b. */
  lemma CeilDivIsCeiling(a: nat, b: nat)
    requires b >= 1
    ensures a <= CeilDiv(a, b) * b
    ensures CeilDiv(a, b) >= 1 ==> (CeilDiv(a, b) - 1) * b < a
  {
    var q, m := (a + b - 1) / b, (a + b - 1) % b;
    assert a + b - 1 == q * b + m;
  }

  /** `ceil(x / 2)` for any integer x: the least r with x <= 2r. */
  function HalfUp(x: int): (r: int)
    ensures x <= 2 * r && 2 * r - 2 < x
  {
    (x + 1) / 2
  }

  /** The lower and upper bound of the page window, as computed at
      Pager.php:51-71 for a current page already normalized. */
  function RangeBounds(current: int, pageCount: int, pageRange: int): (b: (int, int))
    requires pageCount >= 2
    ensures 1 <= b.0 <= pageCount && 1 <= b.1 <= pageCount
    // a positive window contains the current page and holds exactly
    // min(pageRange, pageCount) pages
    ensures pageRange >= 1 && 1 <= current <= pageCount ==>
      b.0 <= current <= b.1 && b.1 - b.0 + 1 == Min(pageRange, pageCount)
  {
    var range := if pageRange > pageCount then pageCount else pageRange;
    var delta := HalfUp(range);
    var (lower, upper) :=
      if current - delta > pageCount - range then
        (pageCount - range + 1, pageCount)
      else
        var delta' := if current - delta < 0 then current else delta;
        var offset := current - delta';
        (offset + 1, offset + range);
    (NormalizePage(lower, pageCount), NormalizePage(upper, pageCount))
  }

  function Min(a: int, b: int): int { if a < b then a else b }

  /** The entries `[lower => lower, ..., upper => upper]` of a PHP array in
      insertion order, as the loop at Pager.php:73-75 builds them. */
  function RangeEntries(lower: int, upper: int): (e: seq<(int, int)>)
    ensures |e| == if lower <= upper then upper - lower + 1 else 0
    ensures forall k :: 0 <= k < |e| ==> e[k] == (lower + k, lower + k)
    decreases upper - lower
  {
    if lower > upper then [] else [(lower, lower)] + RangeEntries(lower + 1, upper)
  }

  /** A non-empty run of consecutive pages within [1, pageCount], each key
      mapped to itself. */
  ghost predicate IsWindow(e: seq<(int, int)>, pageCount: int)
  {
    && |e| >= 1
    && (forall k :: 0 <= k < |e| ==> e[k] == (e[0].0 + k, e[0].0 + k))
    && 1 <= e[0].0 && e[|e| - 1].0 <= pageCount
  }

  lemma RangeEntriesSnoc(lower: int, i: int)
    requires lower <= i
    ensures RangeEntries(lower, i) == RangeEntries(lower, i - 1) + [(i, i)]
  {
  }

  lemma RangeEntriesWindow(lower: int, upper: int, pageCount: int)
    requires 1 <= lower <= upper <= pageCount
    ensures IsWindow(RangeEntries(lower, upper), pageCount)
    ensures RangeEntries(lower, upper)[0].1 == lower
    ensures RangeEntries(lower, upper)[upper - lower].1 == upper
  {
  }

  function Values(e: seq<(int, int)>): (v: seq<int>)
    ensures |v| == |e| && forall k :: 0 <= k < |e| ==> v[k] == e[k].1
  {
    if e == [] then [] else [e[0].1] + Values(e[1..])
  }

  /** `$url` with a trailing slash added when it does not end with one. */
  function WithSlash(url: string): (u: string)
    ensures |u| >= 1 && u[|u| - 1] == '/'
    ensures u == url || u == url + "/"
    ensures u == url <==> |url| >= 1 && url[|url| - 1] == '/'
  {
    if |url| >= 1 && url[|url| - 1] == '/' then url else url + "/"
  }

  /** The "previous" link; it is marked inactive on the first page. */
  function PrevLink(url: string, current: int, previous: int): string
  {
    var state := if current == 1 then " inactive" else "";
    "<a class=\"cta-prev" + state + "\" href=\"" + url + IntToString(previous)
      + "\"><img src=\"/img/btn-pager-prev.jpg\" alt=\"Previous Page\" /></a>"
  }

  /** The "next" link; it is marked inactive on the last page.  The stray
      space after the page number is the source's. */
  function NextLink(url: string, current: int, last: int, next: int): string
  {
    var state := if current == last then " inactive" else "";
    "<a class=\"cta-next" + state + "\" href=\"" + url + IntToString(next)
      + " \"><img src=\"/img/btn-pager-next.jpg\" alt=\"Next Page\" /></a>"
  }

  /** One entry of the page listing: a span for the current page, a link
      otherwise. */
  function PageItem(url: string, page: int, current: int): string
  {
    if page == current then "<span class=\"current\">" + IntToString(page) + "</span>"
    else "<a href=\"" + url + IntToString(page) + "\">" + IntToString(page) + "</a>"
  }

  predicate IsSpan(item: string) { |item| >= 5 && item[..5] == "<span" }

  /** The listing, one item per page, in order. */
  function PageItems(url: string, pages: seq<int>, current: int): (items: seq<string>)
    ensures |items| == |pages|
    ensures forall k :: 0 <= k < |pages| ==> items[k] == PageItem(url, pages[k], current)
  {
    if pages == [] then [] else [PageItem(url, pages[0], current)] + PageItems(url, pages[1..], current)
  }

  function Concat(parts: seq<string>): string
  {
    if parts == [] then "" else Concat(parts[..|parts| - 1]) + parts[|parts| - 1]
  }

  lemma ItemsStep(url: string, pages: seq<int>, current: int, k: nat)
    requires k < |pages|
    ensures Concat(PageItems(url, pages[..k + 1], current))
         == Concat(PageItems(url, pages[..k], current)) + PageItem(url, pages[k], current)
  {
    var items := PageItems(url, pages[..k + 1], current);
    assert items[..k] == PageItems(url, pages[..k], current);
  }

  lemma AppendAssoc(a: string, b: string, c: string)
    ensures (a + b) + c == a + (b + c)
  {
  }

  /** The `foreach` of Pager.php:108-114: appends one item per page to `s`. */
  method AppendItems(s0: string, url: string, pages: seq<int>, current: int) returns (s: string)
    ensures s == s0 + Concat(PageItems(url, pages, current))
  {
    s := s0;
    var k := 0;
    assert PageItems(url, pages[..0], current) == [];
    while k < |pages|
      invariant 0 <= k <= |pages|
      invariant s == s0 + Concat(PageItems(url, pages[..k], current))
    {
      ItemsStep(url, pages, current, k);
      AppendAssoc(s0, Concat(PageItems(url, pages[..k], current)), PageItem(url, pages[k], current));
      s := s + PageItem(url, pages[k], current);
      k := k + 1;
    }
    assert pages[..|pages|] == pages;
  }

  lemma EmptyPrefix(a: string)
    ensures "" + a == a
  {
  }

  /** The number of items of the listing rendered as a span. */
  function CountSpans(items: seq<string>): nat
  {
    if items == [] then 0 else (if IsSpan(items[0]) then 1 else 0) + CountSpans(items[1..])
  }

  /** Only the current page is rendered as a span. */
  lemma PageItemIsSpan(url: string, page: int, current: int)
    ensures IsSpan(PageItem(url, page, current)) <==> page == current
  {
    var item := PageItem(url, page, current);
    if page != current {
      assert item[..5] == "<a hr";
    } else {
      assert item[..5] == "<span";
    }
  }

  /** In a listing of distinct pages that contains the current page, exactly
      one item is a span. */
  lemma {:induction false} ExactlyOneSpan(url: string, pages: seq<int>, current: int)
    requires current in pages
    requires forall i, j :: 0 <= i < j < |pages| ==> pages[i] != pages[j]
    ensures CountSpans(PageItems(url, pages, current)) == 1
  {
    SpanCount(url, pages, current);
  }

  lemma {:induction false} SpanCount(url: string, pages: seq<int>, current: int)
    requires forall i, j :: 0 <= i < j < |pages| ==> pages[i] != pages[j]
    ensures CountSpans(PageItems(url, pages, current)) == if current in pages then 1 else 0
  {
    var items := PageItems(url, pages, current);
    forall k | 0 <= k < |items| ensures IsSpan(items[k]) <==> pages[k] == current {
      PageItemIsSpan(url, pages[k], current);
    }
    CountMatching(items, pages, current);
  }

  /** Counting spans in any listing whose spans sit exactly where the
      current page does. */
  lemma {:induction false} CountMatching(items: seq<string>, pages: seq<int>, current: int)
    requires |items| == |pages|
    requires forall k :: 0 <= k < |items| ==> (IsSpan(items[k]) <==> pages[k] == current)
    requires forall i, j :: 0 <= i < j < |pages| ==> pages[i] != pages[j]
    ensures CountSpans(items) == if current in pages then 1 else 0
    decreases |items|
  {
    if items != [] {
      CountMatching(items[1..], pages[1..], current);
      assert pages == [pages[0]] + pages[1..];
      if current == pages[0] {
        assert forall k :: 0 <= k < |pages[1..]| ==> pages[1..][k] == pages[k + 1] != pages[0];
      }
    }
  }

  /** The loop of Pager.php:73-75: one entry per page from lower to upper. */
  method WindowEntries(lower: int, upper: int) returns (entries: seq<(int, int)>)
    ensures entries == RangeEntries(lower, upper)
  {
    entries := [];
    var i := lower;
    while i <= upper
      invariant lower <= i <= upper + 1 || (i == lower && lower > upper)
      invariant entries == RangeEntries(lower, i - 1)
      decreases upper - i
    {
      RangeEntriesSnoc(lower, i);
      entries := entries + [(i, i)];
      i := i + 1;
    }
  }

  class Pager {
    var pageCount: int
    var itemCountPerPage: int
    var first: int
    var current: int
    var last: int
    var previous: int
    var next: int
    /** The PHP array `$pagesInRange` as (key, value) entries in insertion
        order; None while it is unset. */
    var pagesInRange: Option<seq<(int, int)>>
    var firstPageInRange: Option<int>
    var lastPageInRange: Option<int>

    /** What every constructed pager satisfies. */
    ghost predicate Valid()
      reads this
    {
      && pageCount >= 1
      && first == 1
      && 1 <= current <= pageCount
      && last == pageCount
      && previous == (if current - 1 > 0 then current - 1 else 1)
      && next == (if current + 1 <= pageCount then current + 1 else pageCount)
      && (pagesInRange.Some? ==>
            && IsWindow(pagesInRange.value, pageCount)
            && firstPageInRange == Some(pagesInRange.value[0].1)
            && lastPageInRange == Some(pagesInRange.value[|pagesInRange.value| - 1].1))
      && (pagesInRange.None? ==> firstPageInRange.None? && lastPageInRange.None?)
    }

    constructor (numTotalResults: int, currentPage: int, resultsPerPage: int, pageRange: int)
      ensures Valid()
      // no results: every field keeps its default
      ensures numTotalResults < 1 ==>
        && pageCount == 1 && current == 1 && last == 1 && previous == 1 && next == 1
        && itemCountPerPage == 10 && pagesInRange.None?
      ensures numTotalResults >= 1 ==>
        pageCount == CeilDiv(numTotalResults, if resultsPerPage < 1 then 1 else resultsPerPage)
      // a single page: nothing else is set
      ensures pageCount == 1 ==> current == 1 && itemCountPerPage == 10 && pagesInRange.None?
      ensures pageCount > 1 ==>
        && itemCountPerPage == (if resultsPerPage < 1 then 1 else resultsPerPage)
        && current == NormalizePage(currentPage, pageCount)
        && var (lower, upper) := RangeBounds(current, pageCount, pageRange);
        && pagesInRange == (if lower <= upper then Some(RangeEntries(lower, upper)) else None)
        && (lower <= upper ==> firstPageInRange == Some(lower) && lastPageInRange == Some(upper))
    {
      // the defaults of the field declarations
      var count, perPage, page, lastPage, prev, nxt := 1, 10, 1, 1, 1, 1;
      var window: Option<seq<(int, int)>> := None;
      var low, high: Option<int> := None, None;
      if numTotalResults >= 1 {
        var rpp := if resultsPerPage < 1 then 1 else resultsPerPage;
        count := CeilDiv(numTotalResults, rpp);
        if count != 1 {
          page := NormalizePage(currentPage, count);
          perPage := rpp;
          lastPage := count;
          if page - 1 > 0 {
            prev := page - 1;
          } else {
            prev := 1;
          }
          if page + 1 <= count {
            nxt := page + 1;
          } else {
            nxt := count;
          }
          var (lower, upper) := RangeBounds(page, count, pageRange);
          var entries := WindowEntries(lower, upper);
          if lower <= upper {
            RangeEntriesWindow(lower, upper, count);
            window, low, high := Some(entries), Some(lower), Some(upper);
          }
        }
      }
      pageCount, itemCountPerPage, first, current, last := count, perPage, 1, page, lastPage;
      previous, next := prev, nxt;
      pagesInRange, firstPageInRange, lastPageInRange := window, low, high;
    }

    /** `displayPages`: the empty string for a single page; otherwise the
        previous link, one item per page in the window and the next link. */
    method DisplayPages(url: string) returns (s: string)
      ensures pageCount <= 1 ==> s == ""
      ensures pageCount > 1 ==>
        var u := WithSlash(url);
        var pages := if pagesInRange.Some? then Values(pagesInRange.value) else [];
        s == PrevLink(u, current, previous) + Concat(PageItems(u, pages, current))
             + NextLink(u, current, last, next)
    {
      s := "";
      if pageCount > 1 {
        var u := url;
        if !(|u| >= 1 && u[|u| - 1] == '/') {
          u := u + "/";
        }
        assert u == WithSlash(url);
        EmptyPrefix(PrevLink(u, current, previous));
        s := s + PrevLink(u, current, previous);
        var pages := if pagesInRange.Some? then Values(pagesInRange.value) else [];
        s := AppendItems(s, u, pages, current);
        s := s + NextLink(u, current, last, next);
      }
    }
  }
}
