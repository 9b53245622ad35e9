/** Pagination of a view: pages are numbered from 1 and hold `limit` consecutive
    elements each, cut with `slice`; the page count is the ceiling of the view's
    length divided by the page size. */
module Paging {
  import opened Seqs

  /** `Math.ceil(n / limit)`: the fewest pages of `limit` elements that hold `n`
      elements, so an empty view has no page at all. */
  function TotalPages(n: nat, limit: nat): (r: nat)
    requires limit > 0
    ensures r * limit >= n
    ensures r > 0 ==> (r - 1) * limit < n
    ensures r == 0 <==> n == 0
  {
    var q := (n + limit - 1) / limit;
    DivBounds(n + limit - 1, limit);
    q
  }

  lemma DivBounds(m: nat, d: nat)
    requires d > 0
    ensures (m / d) * d <= m < (m / d) * d + d
  {
  }

  /** The page with number `page`: the elements at positions
      `(page - 1) * limit` up to, not including, `page * limit`, clipped to the view,
      so it is empty once it starts past the end. */
  function Page<T>(view: seq<T>, page: nat, limit: nat): (r: seq<T>)
    requires page >= 1 && limit >= 1
    ensures |r| <= limit
    ensures (page - 1) * limit >= |view| ==> r == []
    ensures (page - 1) * limit < |view| ==>
      |r| == (if page * limit <= |view| then limit else |view| - (page - 1) * limit)
    ensures forall k :: 0 <= k < |r| ==> (page - 1) * limit + k < |view| && r[k] == view[(page - 1) * limit + k]
  {
    var start := (page - 1) * limit;
    assert start + limit == page * limit;
    Slice(view, start, start + limit)
  }

  /** A page is the run of consecutive elements of the view that begins at its start,
      `limit` long or cut short by the end of the view. */
  lemma PageIsRun<T>(view: seq<T>, page: nat, limit: nat)
    requires page >= 1 && limit >= 1
    ensures var r := Page(view, page, limit); var start := (page - 1) * limit;
      r != [] ==> start + |r| <= |view| && r == view[start..start + |r|]
    ensures var r := Page(view, page, limit); var start := (page - 1) * limit;
      start < |view| ==> |r| == (if start + limit <= |view| then limit else |view| - start)
  {
    var r := Page(view, page, limit);
    var start := (page - 1) * limit;
    assert start + limit == page * limit;
    if r != [] {
      assert r[0] == view[start + 0];
    }
  }

  /** Pages 1 to `k` of the view, one after the other. */
  function PagesUpTo<T>(view: seq<T>, k: nat, limit: nat): seq<T>
    requires limit >= 1
  {
    if k == 0 then [] else PagesUpTo(view, k - 1, limit) + Page(view, k, limit)
  }

  /** The first `k` pages are the first `k * limit` elements of the view, or all of it. */
  lemma {:induction false} PagesUpToIsPrefix<T>(view: seq<T>, k: nat, limit: nat)
    requires limit >= 1
    ensures PagesUpTo(view, k, limit) == view[..if k * limit <= |view| then k * limit else |view|]
  {
    if k > 0 {
      PagesUpToIsPrefix(view, k - 1, limit);
      var start := (k - 1) * limit;
      assert k * limit == start + limit;
      var p := Page(view, k, limit);
      if start < |view| {
        var end := if k * limit <= |view| then k * limit else |view|;
        assert p == view[start..end];
        assert view[..start] + view[start..end] == view[..end];
      } else {
        assert p == [];
      }
    }
  }

  /** Concatenating pages 1 to `TotalPages` gives back the whole view, with nothing
      lost and nothing repeated. */
  lemma PagesReconstructView<T>(view: seq<T>, limit: nat)
    requires limit >= 1
    ensures PagesUpTo(view, TotalPages(|view|, limit), limit) == view
  {
    PagesUpToIsPrefix(view, TotalPages(|view|, limit), limit);
  }

  /** A page has elements exactly when its number is at most the page count. */
  lemma PageNonEmptyIffInRange<T>(view: seq<T>, page: nat, limit: nat)
    requires page >= 1 && limit >= 1
    ensures Page(view, page, limit) != [] <==> page <= TotalPages(|view|, limit)
  {
    var n := TotalPages(|view|, limit);
    if page <= n {
      MulMonotone(page - 1, n - 1, limit);
    } else {
      MulMonotone(n, page - 1, limit);
    }
  }

  lemma MulMonotone(a: nat, b: nat, c: nat)
    requires a <= b
    ensures a * c <= b * c
  {
  }
}
