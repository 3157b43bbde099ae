/** Client-side pagination as the sensor, cycle and cultivo lists do it:
    the page count, the slice a page shows, the list state that filters and
    page-size changes reset, and the page-link window of `createPagination`. */
module Paging {
  import opened Wrappers

  function Min(a: int, b: int): int { if a <= b then a else b }
  function Max(a: int, b: int): int { if a >= b then a else b }

  /** `Math.ceil(n / size)`. */
  function TotalPages(n: nat, size: nat): (t: nat)
    requires size >= 1
    ensures n == 0 <==> t == 0
    ensures t >= 1 ==> (t - 1) * size < n <= t * size
  {
    var q := (n + size - 1) / size;
    var r := (n + size - 1) % size;
    assert n + size - 1 == q * size + r && 0 <= r < size;
    assert (q - 1) * size == q * size - size;
    q
  }

  /** The index of the first row on page `page`. */
  function PageStart(page: nat, size: nat): nat
    requires page >= 1
  {
    (page - 1) * size
  }

  /** `rows.slice(start, min(start + size, rows.length))` for page `page`:
      empty once the page starts past the end. */
  function PageItems<T>(rows: seq<T>, page: nat, size: nat): (r: seq<T>)
    requires page >= 1 && size >= 1
    ensures |r| <= size
    ensures PageStart(page, size) >= |rows| ==> r == []
    ensures PageStart(page, size) < |rows| ==>
      r == rows[PageStart(page, size)..Min(PageStart(page, size) + size, |rows|)]
  {
    var start := PageStart(page, size);
    if start >= |rows| then [] else rows[start..Min(start + size, |rows|)]
  }

  /** Pages 1 to `k`, one after the other. */
  function Pages<T>(rows: seq<T>, size: nat, k: nat): seq<T>
    requires size >= 1
  {
    if k == 0 then [] else Pages(rows, size, k - 1) + PageItems(rows, k, size)
  }

  /** The first `k` pages are the first `k * size` rows. */
  lemma {:induction false} PagesPrefix<T>(rows: seq<T>, size: nat, k: nat)
    requires size >= 1
    ensures Pages(rows, size, k) == rows[..Min(k * size, |rows|)]
  {
    if k > 0 {
      PagesPrefix(rows, size, k - 1);
      var start := PageStart(k, size);
      var end := StepEnd(k, size);
      if start < |rows| {
        assert rows[..start] + rows[start..Min(end, |rows|)] == rows[..Min(end, |rows|)];
      }
    }
  }

  /** Page `k` ends where page `k + 1` starts. */
  lemma StepEnd(k: nat, size: nat) returns (end: nat)
    requires k >= 1
    ensures end == PageStart(k, size) + size && end == k * size
    ensures PageStart(k, size) == (k - 1) * size
  {
    end := k * size;
    assert (k - 1) * size + size == k * size;
  }

  /** The pages partition the list: read in order, pages 1 to `TotalPages`
      give back every row exactly once. */
  lemma PagesPartition<T>(rows: seq<T>, size: nat)
    requires size >= 1
    ensures Pages(rows, size, TotalPages(|rows|, size)) == rows
  {
    PagesPrefix(rows, size, TotalPages(|rows|, size));
  }

  /** Row `i` is shown on page `i / size + 1`, at position `i % size`. */
  lemma PageOfRow<T>(rows: seq<T>, size: nat, i: nat)
    requires size >= 1 && i < |rows|
    ensures 1 <= i / size + 1 <= TotalPages(|rows|, size)
    ensures var page := PageItems(rows, i / size + 1, size);
            i % size < |page| && page[i % size] == rows[i]
  {
    var q, r := i / size, i % size;
    assert i == q * size + r;
    assert PageStart(q + 1, size) == q * size;
    var t := TotalPages(|rows|, size);
    assert q * size <= i < |rows| <= t * size;
    if q + 1 > t {
      assert t * size <= q * size by {
        assert t <= q;
        MulMonotone(t, q, size);
      }
    }
  }

  lemma MulMonotone(a: nat, b: nat, c: nat)
    requires a <= b
    ensures a * c <= b * c
  {
  }

  /** What a list view keeps between renders. */
  datatype ListView<T> = ListView(all: seq<T>, filtered: seq<T>, page: nat, pageSize: nat)

  /** The view can be rendered: a current page and a positive page size. */
  predicate Ready<T>(v: ListView<T>) {
    v.page >= 1 && v.pageSize >= 1
  }

  /** Choosing a page size goes back to page 1. */
  function SetPageSize<T>(v: ListView<T>, size: nat): (r: ListView<T>)
    requires size >= 1
    ensures Ready(r) && r.page == 1 && r.pageSize == size
    ensures r.all == v.all && r.filtered == v.filtered
  {
    v.(pageSize := size, page := 1)
  }

  /** A new filter result goes back to page 1. */
  function SetFiltered<T>(v: ListView<T>, filtered: seq<T>): (r: ListView<T>)
    ensures r.page == 1 && r.filtered == filtered
    ensures r.all == v.all && r.pageSize == v.pageSize
    ensures Ready(v) ==> Ready(r)
  {
    v.(filtered := filtered, page := 1)
  }

  /** What a render shows: a message with the pagination hidden for an
      empty result, otherwise the current page and the page count. */
  datatype Shown<T> = NoRows | Rows(items: seq<T>, totalPages: nat)

  function Render<T>(v: ListView<T>): (s: Shown<T>)
    requires Ready(v)
    ensures s.NoRows? <==> v.filtered == []
    ensures s.Rows? ==> s.totalPages >= 1 && |s.items| <= v.pageSize
  {
    if |v.filtered| == 0 then NoRows
    else Rows(PageItems(v.filtered, v.page, v.pageSize), TotalPages(|v.filtered|, v.pageSize))
  }

  /** After a filter change the first page of the new result is shown. */
  lemma RenderAfterFilter<T>(v: ListView<T>, filtered: seq<T>)
    requires Ready(v) && filtered != []
    ensures var s := Render(SetFiltered(v, filtered));
            s.Rows? && s.items == filtered[..Min(v.pageSize, |filtered|)]
  {
  }

  /** A numbered link of the pagination bar; `target` is the page a click
      asks for (none on the current page's own link). */
  datatype PageLink = PageLink(page: int, active: bool, target: Option<int>)

  /** The links for pages `from` to `to`, marking `current`. */
  function Links(from: int, to: int, current: int): (r: seq<PageLink>)
    ensures |r| == if from <= to then to - from + 1 else 0
    ensures forall i :: 0 <= i < |r| ==> r[i].page == from + i
    ensures forall i :: 0 <= i < |r| ==> (r[i].active <==> from + i == current)
    ensures forall i :: 0 <= i < |r| ==> (r[i].target == if from + i == current then None else Some(from + i))
    decreases if from <= to then to - from + 1 else 0
  {
    if from > to then []
    else
      var link := PageLink(from, from == current, if from == current then None else Some(from));
      [link] + Links(from + 1, to, current)
  }

  /** The pagination bar: previous button, page links, next button; a
      disabled button has no target. */
  datatype Bar = Bar(prevDisabled: bool, prev: Option<int>, links: seq<PageLink>, nextDisabled: bool, next: Option<int>)

  /** `createPagination(current, total)`: links from `max(1, current - 2)`
      to `min(total, start + 4)`. */
  function Pagination(current: int, total: int): (b: Bar)
    ensures b.prevDisabled <==> current == 1
    ensures b.prev == if current > 1 then Some(current - 1) else None
    ensures b.nextDisabled <==> current == total
    ensures b.next == if current < total then Some(current + 1) else None
    ensures |b.links| <= 5
    ensures forall i :: 0 <= i < |b.links| ==> 1 <= b.links[i].page <= total
    ensures forall i :: 0 <= i < |b.links| ==> (b.links[i].active <==> b.links[i].page == current)
    ensures forall i :: 0 < i < |b.links| ==> b.links[i].page == b.links[i - 1].page + 1
  {
    var start := Max(1, current - 2);
    var end := Min(total, start + 4);
    Bar(current == 1, if current > 1 then Some(current - 1) else None,
        Links(start, end, current),
        current == total, if current < total then Some(current + 1) else None)
  }

  /** For a page in range the bar shows its link, marked active, among at
      least `min(total, 3)` links (the window does not slide back at the
      last pages, so fewer than five can show even when there are more). */
  lemma PaginationShowsCurrent(current: int, total: int)
    requires 1 <= current <= total
    ensures exists i :: 0 <= i < |Pagination(current, total).links|
                        && Pagination(current, total).links[i].page == current
                        && Pagination(current, total).links[i].active
    ensures |Pagination(current, total).links| >= Min(total, 3)
  {
    var start := Max(1, current - 2);
    var links := Pagination(current, total).links;
    assert links[current - start].page == current;
  }
}
