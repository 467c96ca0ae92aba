/** The `{items, pagination}` envelope every listing action returns, and the
    skip/limit arithmetic behind it. */
module Paging {
  import opened Basics
  import opened Seqs

  /** `{currentPage, totalPages, total…, hasMore}`; `total` stands for the
      collection-specific field (`totalProducts`, `totalOrders`, `totalCustomers`). */
  datatype Pagination = Pagination(currentPage: int, totalPages: nat, total: nat, hasMore: bool)

  /** `{success, error?, <items>, pagination}`. */
  datatype Listing<T> = Listing(success: bool, error: Option<string>, items: seq<T>, pagination: Pagination)

  /** The envelope a listing returns when the database call throws. */
  function Failed<T>(message: string): (r: Listing<T>)
    ensures !r.success && r.error == Some(message) && r.items == []
    ensures r.pagination == Pagination(1, 0, 0, false)
  {
    Listing(false, Some(message), [], Pagination(1, 0, 0, false))
  }

  /** `Math.ceil(n / d)`: the least number of pages of size `d` that hold `n` items. */
  function CeilDiv(n: nat, d: nat): (q: nat)
    requires d > 0
    ensures q * d >= n
    ensures q == 0 || (q - 1) * d < n
  {
    var q := (n + d - 1) / d;
    assert q * d <= n + d - 1 < (q + 1) * d;
    q
  }

  /** `(page - 1) * limit`. */
  function Skip(page: int, limit: nat): nat
    requires page >= 1
  {
    (page - 1) * limit
  }

  /** `items` is page `page` of `sorted` in pages of `limit`: the elements at positions
      `(page - 1) * limit` up to (not including) `page * limit` that exist, in order. */
  ghost predicate IsPage<T>(items: seq<T>, sorted: seq<T>, page: int, limit: nat)
    requires page >= 1
  {
    var skip := Skip(page, limit);
    && |items| == (if skip >= |sorted| then 0 else Min(limit, |sorted| - skip))
    && forall i :: 0 <= i < |items| ==> items[i] == sorted[skip + i]
  }

  /** The requested page of an already sorted result set, with the envelope
      `getProducts`, `getOrders` and `getCustomers` compute around it. */
  function PageOf<T>(sorted: seq<T>, page: int, limit: nat): (r: Listing<T>)
    requires page >= 1 && limit >= 1
    ensures r.success && r.error == None
    ensures IsPage(r.items, sorted, page, limit)
    ensures |r.items| <= limit
    ensures forall x :: x in r.items ==> x in sorted
    ensures r.pagination.currentPage == page && r.pagination.total == |sorted|
    ensures r.pagination.totalPages == CeilDiv(|sorted|, limit)
  {
    var skip := Skip(page, limit);
    var items := Window(sorted, skip, limit);
    Listing(true, None, items,
      Pagination(page, CeilDiv(|sorted|, limit), |sorted|, skip + |items| < |sorted|))
  }

  /** `items` are the elements of `sorted` at the positions from `from` up to (not
      including) `from + limit` that exist; `from` may be negative. */
  ghost predicate IsSpan<T>(items: seq<T>, sorted: seq<T>, from: int, limit: nat) {
    var lo := if from < 0 then 0 else from;
    var hi := Min(from + limit, |sorted|);
    && |items| == (if lo < hi then hi - lo else 0)
    && forall i :: 0 <= i < |items| ==> items[i] == sorted[lo + i]
  }

  /** A page below 1 makes the skip `(page - 1) * limit` at most `-limit`: exactly
      `-limit` on page 0, and `skip + limit` stays negative below it. */
  lemma SkipBelowOne(page: int, limit: nat)
    requires page < 1
    ensures (page - 1) * limit <= -(limit as int)
    ensures page == 0 ==> (page - 1) * limit + limit == 0
    ensures page < 0 && limit >= 1 ==> (page - 1) * limit + limit < 0
  {
    var k := -page;
    assert (page - 1) * limit == -((k + 1) * limit) == -(k * limit) - limit;
    MulMonotone(1, k + 1, limit);
    if page < 0 {
      MulMonotone(1, k, limit);
    }
  }

  /** `slice(skip, skip + limit)` with `skip <= -limit`: empty when the end is 0, the
      span counted back from the end otherwise; either way `skip + |items|` stays
      below the length. */
  lemma SliceBelowZero<T>(sorted: seq<T>, skip: int, limit: nat)
    requires skip + limit <= 0
    ensures skip + limit == 0 ==> Slice(sorted, skip, skip + limit) == []
    ensures skip + limit < 0 ==> IsSpan(Slice(sorted, skip, skip + limit), sorted, |sorted| + skip, limit)
    ensures skip + |Slice(sorted, skip, skip + limit)| < |sorted| || (|sorted| == 0 && skip + limit == 0 && limit == 0)
  {
    if skip + limit < 0 {
      SliceFromEnd(sorted, skip, skip + limit);
    }
  }

  /** The slice a page below 1 cuts: empty on page 0, the span counted back from the
      end below it, and in both cases `skip + |items|` below the length. */
  lemma SliceBelowOne<T>(sorted: seq<T>, page: int, limit: nat)
    requires page < 1 && limit >= 1
    ensures var skip := (page - 1) * limit;
      var items := Slice(sorted, skip, skip + limit);
      && (page == 0 ==> items == [])
      && (page < 0 ==> IsSpan(items, sorted, |sorted| + skip, limit))
      && skip + |items| < |sorted|
  {
    var skip := (page - 1) * limit;
    SkipBelowOne(page, limit);
    SliceBelowZero(sorted, skip, limit);
  }

  /** From page 1 on, the sliced page is the ordinary page. */
  lemma SliceFromOne<T>(sorted: seq<T>, page: int, limit: nat)
    requires page >= 1 && limit >= 1
    ensures var skip := (page - 1) * limit;
      var items := Slice(sorted, skip, skip + limit);
      Listing(true, None, items, Pagination(page, CeilDiv(|sorted|, limit), |sorted|, skip + |items| < |sorted|))
        == PageOf(sorted, page, limit)
  {
    SliceFromNatural(sorted, Skip(page, limit), limit);
  }

  /** The page `getCustomers` cuts out of the ranking with `slice(skip, skip + limit)`
      instead of a database skip. From page 1 on it is the ordinary page. Below 1 the
      skip is negative and `slice` counts back from the end: page 0 is empty, and page
      `-n` holds the positions from `(n + 1) * limit` to `n * limit` before the end.
      Such a page always reports `hasMore`. */
  function SlicePage<T>(sorted: seq<T>, page: int, limit: nat): (r: Listing<T>)
    requires limit >= 1
    ensures page >= 1 ==> r == PageOf(sorted, page, limit)
    ensures r.success && r.error == None && |r.items| <= limit
    ensures r.pagination.currentPage == page && r.pagination.total == |sorted|
    ensures r.pagination.totalPages == CeilDiv(|sorted|, limit)
    ensures page == 0 ==> r.items == []
    ensures page < 0 ==> IsSpan(r.items, sorted, |sorted| + (page - 1) * limit, limit)
    ensures page < 1 ==> r.pagination.hasMore
  {
    var skip := (page - 1) * limit;
    var items := Slice(sorted, skip, skip + limit);
    var r := Listing(true, None, items, Pagination(page, CeilDiv(|sorted|, limit), |sorted|, skip + |items| < |sorted|));
    if page >= 1 then
      SliceFromOne(sorted, page, limit);
      r
    else
      SliceBelowOne(sorted, page, limit);
      r
  }

  /** `?page=-1` over 25 ranked rows, 10 to a page: the slice starts 20 before the
      end, so the rows ranked 6th to 15th come back, and `hasMore` is set. */
  lemma MinusOnePageCountsFromEnd<T>(sorted: seq<T>)
    requires |sorted| == 25
    ensures SlicePage(sorted, -1, 10).items == sorted[5..15]
    ensures SlicePage(sorted, -1, 10).pagination.hasMore
  {
    var items := SlicePage(sorted, -1, 10).items;
    assert |items| == 10;
    assert forall i :: 0 <= i < 10 ==> items[i] == sorted[5 + i];
  }

  /** A page of a sorted result set is itself sorted. */
  lemma PageKeepsOrder<T>(sorted: seq<T>, page: int, limit: nat, key: T -> real)
    requires page >= 1 && limit >= 1 && SortedDesc(sorted, key)
    ensures SortedDesc(PageOf(sorted, page, limit).items, key)
  {
    var r := PageOf(sorted, page, limit).items;
    var skip := Skip(page, limit);
    forall i, j | 0 <= i < j < |r|
      ensures key(r[i]) >= key(r[j])
    {
      assert r[i] == sorted[skip + i] && r[j] == sorted[skip + j];
    }
  }

  /** A span of a sorted sequence is sorted and holds only its elements. */
  lemma SpanKeepsOrder<T>(items: seq<T>, sorted: seq<T>, from: int, limit: nat, key: T -> real)
    requires IsSpan(items, sorted, from, limit) && SortedDesc(sorted, key)
    ensures SortedDesc(items, key)
    ensures forall x :: x in items ==> x in sorted
  {
    var lo := if from < 0 then 0 else from;
    forall i, j | 0 <= i < j < |items|
      ensures key(items[i]) >= key(items[j])
    {
      assert items[i] == sorted[lo + i] && items[j] == sorted[lo + j];
    }
    forall x | x in items
      ensures x in sorted
    {
      var i :| 0 <= i < |items| && items[i] == x;
      assert x == sorted[lo + i];
    }
  }

  /** Whatever the page number, a sliced page of a sorted result set is sorted and
      holds only elements of it. */
  lemma SlicePageKeepsOrder<T>(sorted: seq<T>, page: int, limit: nat, key: T -> real)
    requires limit >= 1 && SortedDesc(sorted, key)
    ensures SortedDesc(SlicePage(sorted, page, limit).items, key)
    ensures forall x :: x in SlicePage(sorted, page, limit).items ==> x in sorted
  {
    if page >= 1 {
      PageKeepsOrder(sorted, page, limit, key);
    } else if page < 0 {
      SpanKeepsOrder(SlicePage(sorted, page, limit).items, sorted, |sorted| + (page - 1) * limit, limit, key);
    }
  }

  /** `hasMore` is set exactly when a later page exists, and a page past the
      last one is empty. */
  lemma HasMoreIffLaterPage<T>(sorted: seq<T>, page: int, limit: nat)
    requires page >= 1 && limit >= 1
    ensures PageOf(sorted, page, limit).pagination.hasMore <==> page < CeilDiv(|sorted|, limit)
    ensures page > CeilDiv(|sorted|, limit) ==> PageOf(sorted, page, limit).items == []
    ensures 1 <= page <= CeilDiv(|sorted|, limit) ==> PageOf(sorted, page, limit).items != []
  {
    var n, q := |sorted|, CeilDiv(|sorted|, limit);
    if page < q {
      MulMonotone(page, q - 1, limit);
    } else {
      MulMonotone(q, page, limit);
      if page > q {
        MulMonotone(q, page - 1, limit);
      }
    }
  }

  lemma MulMonotone(a: nat, b: nat, c: nat)
    requires a <= b
    ensures a * c <= b * c
  {
  }

  /** The page that holds position `k` of the sorted result set: `k / limit + 1`. */
  function PageHolding(k: nat, limit: nat): (page: int)
    requires limit >= 1
    ensures page >= 1 && Skip(page, limit) <= k < Skip(page, limit) + limit
  {
    var page := k / limit + 1;
    assert Skip(page, limit) == k - k % limit;
    page
  }

  /** Paging loses and duplicates nothing: the item at position `k` of the sorted
      result set is item `k - Skip(page, limit)` (that is, `k % limit`) of the page
      that holds it, and of no other page. */
  lemma PageLocates<T>(sorted: seq<T>, limit: nat, k: nat)
    requires limit >= 1 && k < |sorted|
    ensures var page := PageHolding(k, limit);
      var r := PageOf(sorted, page, limit);
      k - Skip(page, limit) < |r.items| && r.items[k - Skip(page, limit)] == sorted[k]
    ensures forall page :: page >= 1 && page != PageHolding(k, limit) ==>
      !(Skip(page, limit) <= k < Skip(page, limit) + |PageOf(sorted, page, limit).items|)
  {
    var h := PageHolding(k, limit);
    forall page | page >= 1 && page != h
      ensures !(Skip(page, limit) <= k < Skip(page, limit) + |PageOf(sorted, page, limit).items|)
    {
      if page < h {
        MulMonotone(page, h - 1, limit);
      } else {
        MulMonotone(h, page - 1, limit);
      }
    }
  }
}
