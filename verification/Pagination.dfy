/** The page list under a table: boundary pages, the neighbours of the current page, and ellipses for what is left out.
    */
module Pagination {

  datatype Item = First | Previous | Page(number: int) | StartEllipsis | EndEllipsis | Following | Final

  function Max(a: int, b: int): int { if a > b then a else b }

  function Min(a: int, b: int): int { if a < b then a else b }

  function Range(start: int, end: int): seq<Item> {
    if end - start + 1 > 0 then seq(end - start + 1, k => Page(start + k)) else []
  }

  function TotalPages(count: int): int { Max(1, count) }

  function CurrentPage(count: int, page: int): int { Min(Max(1, page), TotalPages(count)) }

  function SiblingsStart(total: int, current: int, boundary: int, sibling: int): int {
    Max(Min(current - sibling, total - boundary - sibling * 2 - 1), boundary + 2)
  }

  function EndStart(total: int, boundary: int): int {
    Max(total - boundary + 1, boundary + 1)
  }

  function SiblingsEnd(total: int, current: int, boundary: int, sibling: int): int {
    Min(Max(current + sibling, boundary + sibling * 2 + 2),
        if EndStart(total, boundary) <= total then EndStart(total, boundary) - 2 else total - 1)
  }

  function StartFiller(total: int, boundary: int, siblingsStart: int): seq<Item> {
    if siblingsStart > boundary + 2 then [StartEllipsis]
    else if boundary + 1 < total - boundary then [Page(boundary + 1)] else []
  }

  function EndFiller(total: int, boundary: int, siblingsEnd: int): seq<Item> {
    if siblingsEnd < total - boundary - 1 then [EndEllipsis]
    else if total - boundary > boundary then [Page(total - boundary)] else []
  }

  /** The pages and ellipses of usePaginationItems. */
  function Pages(total: int, current: int, boundary: int, sibling: int): seq<Item> {
    var siblingsStart, siblingsEnd :=
      SiblingsStart(total, current, boundary, sibling), SiblingsEnd(total, current, boundary, sibling);
    Range(1, Min(boundary, total))
    + (StartFiller(total, boundary, siblingsStart)
    + (Range(siblingsStart, siblingsEnd)
    + (EndFiller(total, boundary, siblingsEnd)
    + Range(EndStart(total, boundary), total))))
  }

  function ButtonsBefore(hidePrevious: bool, showFirst: bool): seq<Item> {
    (if showFirst then [First] else []) + if hidePrevious then [] else [Previous]
  }

  function ButtonsAfter(hideNext: bool, showLast: bool): seq<Item> {
    (if hideNext then [] else [Following]) + if showLast then [Final] else []
  }

  function Items(
    count: int, page: int, boundary: int, sibling: int,
    hideNext: bool, hidePrevious: bool, showFirst: bool, showLast: bool): seq<Item>
  {
    ButtonsBefore(hidePrevious, showFirst)
    + Pages(TotalPages(count), CurrentPage(count, page), boundary, sibling)
    + ButtonsAfter(hideNext, showLast)
  }

  // ----- what a page list promises -----

  /** Read from left to right the items account for every page from `next` to `total`: page items in steps of one,
      each ellipsis for at least two pages, up to the page that follows it. */
  ghost predicate Covers(items: seq<Item>, next: int, total: int)
    decreases |items|, 0
  {
    if items == [] then next == total + 1
    else match items[0]
      case Page(n) => n == next && Covers(items[1..], n + 1, total)
      case StartEllipsis => Skips(items[1..], next, total)
      case EndEllipsis => Skips(items[1..], next, total)
      case _ => false
  }

  ghost predicate Skips(items: seq<Item>, next: int, total: int)
    decreases |items|, 1
  {
    if items == [] then total + 1 - next >= 2
    else items[0].Page? && items[0].number - next >= 2 && Covers(items, items[0].number, total)
  }

  lemma {:induction false} RangeCovers(start: int, end: int, rest: seq<Item>, total: int)
    requires start <= end + 1 && Covers(rest, end + 1, total)
    ensures Covers(Range(start, end) + rest, start, total)
    decreases end - start
  {
    var items := Range(start, end) + rest;
    if start > end {
      assert items == rest;
    } else {
      assert items[0] == Page(start) && items[1..] == Range(start + 1, end) + rest;
      RangeCovers(start + 1, end, rest, total);
    }
  }

  lemma EllipsisCovers(ellipsis: Item, items: seq<Item>, next: int, total: int)
    requires ellipsis.StartEllipsis? || ellipsis.EndEllipsis?
    requires Skips(items, next, total)
    ensures Covers([ellipsis] + items, next, total)
  {
    assert ([ellipsis] + items)[1..] == items;
  }

  lemma RangeSkips(start: int, end: int, rest: seq<Item>, next: int, total: int)
    requires start <= end && start - next >= 2 && Covers(rest, end + 1, total)
    ensures Skips(Range(start, end) + rest, next, total)
  {
    RangeCovers(start, end, rest, total);
    assert (Range(start, end) + rest)[0] == Page(start);
  }

  ghost predicate Bounds(total: int, current: int, boundary: int, sibling: int) {
    1 <= current <= total && boundary >= 0 && sibling >= 0
  }

  lemma EndCovers(total: int, boundary: int, siblingsEnd: int, next: int)
    requires boundary >= 0 && total >= 1
    requires next == if total - boundary > boundary then siblingsEnd + 1 else Min(boundary, total) + 1
    requires total - boundary > boundary ==> siblingsEnd <= total - boundary - 1
    requires total - boundary <= boundary ==> siblingsEnd >= total - boundary - 1
    ensures Covers(EndFiller(total, boundary, siblingsEnd) + Range(EndStart(total, boundary), total), next, total)
  {
    var end := Range(EndStart(total, boundary), total);
    assert Covers([], total + 1, total);
    assert end + [] == end;
    if siblingsEnd < total - boundary - 1 {
      if boundary > 0 { RangeSkips(EndStart(total, boundary), total, [], next, total); }
      EllipsisCovers(EndEllipsis, end, next, total);
    } else {
      if boundary <= total { RangeCovers(EndStart(total, boundary), total, [], total); }
      if total - boundary > boundary { assert ([Page(total - boundary)] + end)[1..] == end; }
      else { assert EndFiller(total, boundary, siblingsEnd) + end == end; }
    }
  }

  /** Main result: the list accounts for every page from 1 to the total, in order. */
  lemma PagesCover(total: int, current: int, boundary: int, sibling: int)
    requires Bounds(total, current, boundary, sibling)
    ensures Covers(Pages(total, current, boundary, sibling), 1, total)
  {
    var from, to := SiblingsStart(total, current, boundary, sibling), SiblingsEnd(total, current, boundary, sibling);
    var rest := EndFiller(total, boundary, to) + Range(EndStart(total, boundary), total);
    var siblings := Range(from, to) + rest;
    var filled := StartFiller(total, boundary, from) + siblings;
    if total - boundary > boundary {
      EndCovers(total, boundary, to, to + 1);
      if from > boundary + 2 {
        RangeSkips(from, to, rest, boundary + 1, total);
        EllipsisCovers(StartEllipsis, siblings, boundary + 1, total);
      } else if boundary + 1 < total - boundary {
        RangeCovers(from, to, rest, total);
        assert ([Page(boundary + 1)] + siblings)[1..] == siblings;
      } else {
        assert filled == rest;
      }
      RangeCovers(1, boundary, filled, total);
    } else {
      assert filled == rest;
      EndCovers(total, boundary, to, Min(boundary, total) + 1);
      RangeCovers(1, Min(boundary, total), filled, total);
    }
  }

  /** Main result: the number of pages and ellipses is the same wherever the current page lies. */
  lemma PagesCount(total: int, current: int, boundary: int, sibling: int)
    requires Bounds(total, current, boundary, sibling)
    ensures |Pages(total, current, boundary, sibling)| == Min(total, 2 * boundary + 2 * sibling + 3)
  {
  }

  /** The boundary pages and the neighbours of the current page are never hidden. */
  lemma NearIsListed(total: int, current: int, boundary: int, sibling: int, n: int)
    requires Bounds(total, current, boundary, sibling) && 1 <= n <= total
    requires n <= boundary || n > total - boundary || current - sibling <= n <= current + sibling
    ensures Page(n) in Pages(total, current, boundary, sibling)
  {
    var from, to := SiblingsStart(total, current, boundary, sibling), SiblingsEnd(total, current, boundary, sibling);
    InRange(1, Min(boundary, total), n);
    InRange(from, to, n);
    InRange(EndStart(total, boundary), total, n);
  }

  lemma StartEllipsisSide(
    before: seq<Item>, siblings: seq<Item>, after: seq<Item>, from: int, to: int, current: int, k: nat)
    requires siblings == Range(from, to) && from <= to && from <= current
    requires forall j :: 0 <= j < |before| ==> before[j].Page?
    requires forall j :: 0 <= j < |after| ==> after[j] != StartEllipsis
    requires var pages := before + ([StartEllipsis] + (siblings + after)); k < |pages| && pages[k] == StartEllipsis
    ensures var pages := before + ([StartEllipsis] + (siblings + after));
      k == |before| && k + 1 < |pages| && pages[k + 1] == Page(from)
  {
    var pages := before + ([StartEllipsis] + (siblings + after));
    assert forall j :: 0 <= j < |siblings| ==> siblings[j].Page?;
    assert pages[|before| + 1] == siblings[0];
  }

  lemma EndEllipsisSide(
    before: seq<Item>, siblings: seq<Item>, after: seq<Item>, from: int, to: int, current: int, k: nat)
    requires siblings == Range(from, to) && from <= to && current <= to
    requires forall j :: 0 <= j < |before| ==> before[j] != EndEllipsis
    requires forall j :: 0 <= j < |after| ==> after[j].Page?
    requires var pages := before + (siblings + ([EndEllipsis] + after)); k < |pages| && pages[k] == EndEllipsis
    ensures var pages := before + (siblings + ([EndEllipsis] + after));
      k == |pages| - 1 - |after| && k > 0 && pages[k - 1] == Page(to)
  {
    var pages := before + (siblings + ([EndEllipsis] + after));
    var at := |before| + |siblings|;
    assert forall j :: 0 <= j < |siblings| ==> siblings[j].Page?;
    assert pages[at - 1] == siblings[|siblings| - 1];
  }

  /** Each ellipsis stands on its own side of the current page. */
  lemma EllipsisSides(total: int, current: int, boundary: int, sibling: int, k: nat)
    requires Bounds(total, current, boundary, sibling) && k < |Pages(total, current, boundary, sibling)|
    ensures var pages := Pages(total, current, boundary, sibling);
      && (pages[k] == StartEllipsis ==>
            k == boundary && k + 1 < |pages| && pages[k + 1].Page? && pages[k + 1].number <= current)
      && (pages[k] == EndEllipsis ==>
            k == |pages| - 1 - boundary && k > 0 && pages[k - 1].Page? && pages[k - 1].number >= current)
  {
    var pages := Pages(total, current, boundary, sibling);
    var from, to := SiblingsStart(total, current, boundary, sibling), SiblingsEnd(total, current, boundary, sibling);
    var start, first := Range(1, Min(boundary, total)), StartFiller(total, boundary, from);
    var last, end := EndFiller(total, boundary, to), Range(EndStart(total, boundary), total);
    if pages[k] == StartEllipsis {
      StartIsThere(start, first, Range(from, to), last, end, k);
      StartEllipsisSide(start, Range(from, to), last + end, from, to, current, k);
    }
    if pages[k] == EndEllipsis {
      EndIsThere(start, first, Range(from, to), last, end, k);
      assert pages == (start + first) + (Range(from, to) + (last + end));
      EndEllipsisSide(start + first, Range(from, to), end, from, to, current, k);
    }
  }

  /** An ellipsis can only come from its own filler. */
  lemma StartIsThere(start: seq<Item>, first: seq<Item>, siblings: seq<Item>, last: seq<Item>, end: seq<Item>, k: nat)
    requires forall j :: 0 <= j < |start| ==> start[j].Page?
    requires forall j :: 0 <= j < |siblings| ==> siblings[j].Page?
    requires forall j :: 0 <= j < |end| ==> end[j].Page?
    requires |first| <= 1 && |last| <= 1 && (last == [] || last[0].EndEllipsis? || last[0].Page?)
    requires first == [] || first[0].StartEllipsis? || first[0].Page?
    requires var pages := start + (first + (siblings + (last + end))); k < |pages| && pages[k] == StartEllipsis
    ensures first == [StartEllipsis]
  {
  }

  lemma EndIsThere(start: seq<Item>, first: seq<Item>, siblings: seq<Item>, last: seq<Item>, end: seq<Item>, k: nat)
    requires forall j :: 0 <= j < |start| ==> start[j].Page?
    requires forall j :: 0 <= j < |siblings| ==> siblings[j].Page?
    requires forall j :: 0 <= j < |end| ==> end[j].Page?
    requires |first| <= 1 && |last| <= 1 && (last == [] || last[0].EndEllipsis? || last[0].Page?)
    requires first == [] || first[0].StartEllipsis? || first[0].Page?
    requires var pages := start + (first + (siblings + (last + end))); k < |pages| && pages[k] == EndEllipsis
    ensures last == [EndEllipsis]
  {
  }

  lemma InRange(start: int, end: int, n: int)
    ensures Page(n) in Range(start, end) <==> start <= n <= end
  {
    if start <= n <= end { assert Range(start, end)[n - start] == Page(n); }
  }

  /** What covering means item by item: page numbers increase, and two neighbouring page items have no page between
      them. */
  lemma {:induction false} CoveredInOrder(items: seq<Item>, next: int, total: int, i: nat, j: nat)
    requires Covers(items, next, total) && i < j < |items| && items[i].Page? && items[j].Page?
    ensures next <= items[i].number < items[j].number <= total
    ensures j == i + 1 ==> items[j].number == items[i].number + 1
    decreases |items|
  {
    if i > 0 {
      var later := if items[0].Page? then items[0].number + 1 else items[1].number;
      CoveredInOrder(items[1..], later, total, i - 1, j - 1);
    } else {
      CoveredWithin(items[1..], items[0].number + 1, total, j - 1);
    }
  }

  lemma {:induction false} CoveredWithin(items: seq<Item>, next: int, total: int, j: nat)
    requires Covers(items, next, total) && j < |items| && items[j].Page?
    ensures next <= items[j].number <= total
    ensures j == 0 ==> items[j].number == next
    decreases |items|
  {
    CoveredEnd(items, next, total);
    if j > 0 {
      var later := if items[0].Page? then items[0].number + 1 else items[1].number;
      CoveredWithin(items[1..], later, total, j - 1);
    }
  }

  lemma {:induction false} CoveredEnd(items: seq<Item>, next: int, total: int)
    requires Covers(items, next, total)
    ensures next <= total + 1 && (items != [] ==> next <= total)
    decreases |items|
  {
    if items != [] && items[0].Page? {
      CoveredEnd(items[1..], next + 1, total);
    } else if |items| > 1 {
      CoveredEnd(items[1..], items[1].number, total);
    }
  }

  /** The whole list, whatever count and page the caller passes: the buttons asked for, and between them a list of
      fixed length that accounts for every page and contains the current one. */
  lemma PageList(
    count: int, page: int, boundary: nat, sibling: nat,
    hideNext: bool, hidePrevious: bool, showFirst: bool, showLast: bool) returns (list: seq<Item>)
    ensures Items(count, page, boundary, sibling, hideNext, hidePrevious, showFirst, showLast)
         == (if showFirst then [First] else []) + (if hidePrevious then [] else [Previous])
          + list + ((if hideNext then [] else [Following]) + if showLast then [Final] else [])
    ensures var total := if count < 1 then 1 else count;
      var current := if page < 1 then 1 else if page > total then total else page;
      && Covers(list, 1, total)
      && (forall n :: 1 <= n <= total && current - sibling <= n <= current + sibling ==> Page(n) in list)
      && |list| == if total < 2 * boundary + 2 * sibling + 3 then total else 2 * boundary + 2 * sibling + 3
  {
    var total, current := TotalPages(count), CurrentPage(count, page);
    list := Pages(total, current, boundary, sibling);
    PagesCount(total, current, boundary, sibling);
    PagesCover(total, current, boundary, sibling);
    forall n | 1 <= n <= total && current - sibling <= n <= current + sibling ensures Page(n) in list {
      NearIsListed(total, current, boundary, sibling, n);
    }
  }
}
