/** The list pages' client controls, shared by the orders, customers and products
    tables (components/OrdersClient.tsx, CustomersClient.tsx, ProductsClient.tsx): the
    search form and page links that rewrite the query string, the page-number strip with
    its ellipses, the Previous/Next buttons, and the order status badge colours. */
module PageControls {
  import opened Basics
  import opened Text
  import opened Seqs
  import opened OrderModel

  // ---------------------------------------------------------------------------
  // The query string
  // ---------------------------------------------------------------------------

  /** The query parameters of the list page's URL. */
  type Params = map<string, string>

  /** `handleSearch`: a non-empty term replaces `search`, an empty one deletes it, and
      the page goes back to "1". */
  function SubmitSearch(params: Params, term: string): (r: Params)
    ensures "page" in r && r["page"] == "1"
    ensures "search" in r <==> term != ""
    ensures term != "" ==> r["search"] == term
    ensures forall k :: k != "page" && k != "search" ==> (k in r <==> k in params)
    ensures forall k :: k in params && k != "page" && k != "search" ==> r[k] == params[k]
  {
    var searched := if term != "" then params["search" := term] else params - {"search"};
    searched["page" := "1"]
  }

  /** Submitting the same search twice leads to the same URL as submitting it once. */
  lemma SubmitSearchIdempotent(params: Params, term: string)
    ensures SubmitSearch(SubmitSearch(params, term), term) == SubmitSearch(params, term)
  {
  }

  /** `handlePageChange`: only `page` changes, to `newPage.toString()`. The arrows can
      ask for a page below 1, which is written with a minus sign. */
  function ChangePage(params: Params, page: int): (r: Params)
    ensures "page" in r && |r["page"]| >= 1
    ensures r["page"][0] == '-' <==> page < 0
    ensures (r["page"][0] == '-' || '0' <= r["page"][0] <= '9')
      && (forall k :: 1 <= k < |r["page"]| ==> '0' <= r["page"][k] <= '9')
    ensures SignedValue(r["page"]) == page
    ensures forall k :: k != "page" ==> (k in r <==> k in params)
    ensures forall k :: k in params && k != "page" ==> r[k] == params[k]
  {
    SignedNumeralRoundTrip(page);
    params["page" := SignedNumeral(page)]
  }

  /** Changing page keeps the search: the term submitted is still the one in the URL. */
  lemma PagingKeepsSearch(params: Params, term: string, page: int)
    requires term != ""
    ensures var r := ChangePage(SubmitSearch(params, term), page);
      "search" in r && r["search"] == term
  {
  }

  /** The Clear button navigates to the bare list URL: no parameter survives. */
  function ClearSearch(params: Params): (r: Params)
    ensures r == map[]
    ensures "search" !in r && "page" !in r
  {
    map[]
  }

  // ---------------------------------------------------------------------------
  // The page-number strip
  // ---------------------------------------------------------------------------

  /** The controls are rendered only when there is more than one page. */
  predicate ShowsControls(totalPages: int) {
    totalPages > 1
  }

  /** A page number gets a button: the first, the last, and the neighbours of the current. */
  predicate Shown(page: int, current: int, totalPages: int) {
    page == 1 || page == totalPages || -1 <= page - current <= 1
  }

  function ShownPage(current: int, totalPages: int): int -> bool {
    p => Shown(p, current, totalPages)
  }

  /** `Array.from({ length: n }, (_, i) => i + 1)`: the pages 1 .. n. */
  function Pages(n: int): (r: seq<int>)
    ensures |r| == (if n > 0 then n else 0)
    ensures forall i :: 0 <= i < |r| ==> r[i] == i + 1
  {
    if n > 0 then seq(n, i requires 0 <= i < n => i + 1) else []
  }

  predicate Ascending(s: seq<int>) {
    forall i, j :: 0 <= i < j < |s| ==> s[i] < s[j]
  }

  /** Filtering keeps an ascending sequence ascending. */
  lemma {:induction false} FilterAscending(s: seq<int>, p: int -> bool)
    requires Ascending(s)
    ensures Ascending(Filter(s, p))
    decreases |s|
  {
    if |s| > 0 {
      var prefix := s[..|s| - 1];
      FilterAscending(prefix, p);
      var kept := Filter(prefix, p);
      forall x | x in kept
        ensures x < s[|s| - 1]
      {
        var i :| 0 <= i < |prefix| && prefix[i] == x;
      }
    }
  }

  /** The page buttons, in ascending order. */
  function VisiblePages(current: int, totalPages: int): (r: seq<int>)
    ensures forall p :: p in r <==> 1 <= p <= totalPages && Shown(p, current, totalPages)
    ensures Ascending(r)
  {
    var all := Pages(totalPages);
    FilterAscending(all, ShownPage(current, totalPages));
    var r := Filter(all, ShownPage(current, totalPages));
    forall p | 1 <= p <= totalPages && Shown(p, current, totalPages)
      ensures p in r
    {
      assert all[p - 1] == p;
    }
    r
  }

  /** Ascending integers grow by at least one per step. */
  lemma {:induction false} AscendingGap(s: seq<int>, i: nat, j: nat)
    requires Ascending(s) && i <= j < |s|
    ensures s[j] - s[i] >= j - i
    decreases j - i
  {
    if i < j {
      AscendingGap(s, i, j - 1);
    }
  }

  /** At most five buttons: the first, the last and three around the current page. */
  lemma AtMostFiveButtons(current: int, totalPages: int)
    ensures |VisiblePages(current, totalPages)| <= 5
  {
    var r := VisiblePages(current, totalPages);
    var n := |r|;
    if n >= 4 {
      assert r[0] in r && r[1] in r && r[n - 2] in r && r[n - 1] in r;
      AscendingGap(r, 1, n - 2);
      assert r[1] > r[0] >= 1;
      assert r[n - 2] < r[n - 1] <= totalPages;
      assert -1 <= r[1] - current <= 1;
      assert -1 <= r[n - 2] - current <= 1;
    }
  }

  /** The first and the last page, and the current one when it exists, always have a button. */
  lemma EndsAndCurrentShown(current: int, totalPages: int)
    requires totalPages >= 1
    ensures 1 in VisiblePages(current, totalPages)
    ensures totalPages in VisiblePages(current, totalPages)
    ensures 1 <= current <= totalPages ==> current in VisiblePages(current, totalPages)
  {
  }

  /** An ellipsis is drawn before the button at `index` when the previous button is not
      the page just before it. */
  predicate EllipsisBefore(buttons: seq<int>, index: int)
    requires 0 <= index < |buttons|
  {
    index > 0 && buttons[index - 1] != buttons[index] - 1
  }

  /** An ellipsis marks exactly the places where pages were left out. */
  lemma EllipsisMarksHiddenPages(current: int, totalPages: int, index: nat)
    requires index < |VisiblePages(current, totalPages)|
    ensures var r := VisiblePages(current, totalPages);
      EllipsisBefore(r, index) <==>
        index > 0 && exists p :: r[index - 1] < p < r[index] && 1 <= p <= totalPages && p !in r
  {
    var r := VisiblePages(current, totalPages);
    if EllipsisBefore(r, index) {
      var p := r[index] - 1;
      assert r[index - 1] in r && r[index] in r;
      forall k | 0 <= k < |r|
        ensures r[k] != p
      {
        if k < index {
          AscendingGap(r, k, index - 1);
        } else if k > index {
          AscendingGap(r, index, k);
        }
      }
      assert r[index - 1] < p < r[index] && 1 <= p <= totalPages && p !in r;
    }
  }

  /** The button of the current page is highlighted. */
  predicate Highlighted(page: int, current: int) {
    page == current
  }

  /** Previous is disabled on page 1 and goes one page back. */
  predicate PreviousEnabled(current: int) {
    current != 1
  }

  /** Next is disabled on the last page and goes one page forward. */
  predicate NextEnabled(current: int, totalPages: int) {
    current != totalPages
  }

  /** From any page in range, the enabled arrows lead to a page in range. */
  lemma ArrowsStayInRange(current: int, totalPages: int)
    requires 1 <= current <= totalPages
    ensures PreviousEnabled(current) ==> 1 <= current - 1 <= totalPages
    ensures NextEnabled(current, totalPages) ==> 1 <= current + 1 <= totalPages
    ensures ShowsControls(totalPages) ==> PreviousEnabled(current) || NextEnabled(current, totalPages)
  {
  }

  /** As written the arrows only test for equality with the ends, so from a page out of
      range (`?page=5` of 3, `?page=-1`) the enabled arrow leads further out. */
  lemma ArrowsLeaveRangeAsWritten(params: Params)
    ensures ShowsControls(3) && NextEnabled(5, 3) && ChangePage(params, 5 + 1)["page"] == "6"
    ensures PreviousEnabled(-1) && ChangePage(params, -1 - 1)["page"] == "-2"
  {
    assert Digits(6) == "6" && Digits(2) == "2";
  }

  /** Previous disabled from page 1 down. */
  predicate PreviousEnabledBounded(current: int) {
    current > 1
  }

  /** Next disabled from the last page up. */
  predicate NextEnabledBounded(current: int, totalPages: int) {
    current < totalPages
  }

  /** With the arrows bounded by comparison, from any page an enabled arrow moves
      towards the range and never past its ends; in range they behave as written. */
  lemma BoundedArrowsStayInRange(current: int, totalPages: int)
    ensures PreviousEnabledBounded(current) ==> current - 1 >= 1
    ensures NextEnabledBounded(current, totalPages) ==> current + 1 <= totalPages
    ensures 1 <= current <= totalPages ==>
      && (PreviousEnabledBounded(current) <==> PreviousEnabled(current))
      && (NextEnabledBounded(current, totalPages) <==> NextEnabled(current, totalPages))
    ensures current > totalPages >= 1 ==> PreviousEnabledBounded(current) && !NextEnabledBounded(current, totalPages)
    ensures current < 1 < totalPages ==> NextEnabledBounded(current, totalPages) && !PreviousEnabledBounded(current)
  {
  }

  // ---------------------------------------------------------------------------
  // Table cells of the orders list
  // ---------------------------------------------------------------------------

  /** The colour of a known status (`getStatusColor`'s table). */
  function KnownColor(s: Status): string {
    match s
    case Pending => "bg-yellow-100 text-yellow-800"
    case Processing => "bg-blue-100 text-blue-800"
    case Shipped => "bg-purple-100 text-purple-800"
    case Delivered => "bg-green-100 text-green-800"
    case Cancelled => "bg-red-100 text-red-800"
  }

  const FallbackColor := "bg-gray-100 text-gray-800"

  /** `getStatusColor`: the table's entry for the status, gray for anything else. */
  function StatusColor(status: string): (c: string)
    ensures ParseStatus(status).Some? ==> c == KnownColor(ParseStatus(status).value)
  {
    match ParseStatus(status)
    case Some(s) => KnownColor(s)
    case None => FallbackColor
  }

  /** The status a colour class list is for, read off the first letter of its hue
    (`bg-yellow-…`, `bg-blue-…`, …); gray and anything else name none. */
  function HueStatus(classes: string): Option<Status> {
    if |classes| <= 5 then None
    else if classes[5] == 'l' then Some(Pending)
    else if classes[5] == 'u' then Some(Processing)
    else if classes[5] == 'r' then Some(Shipped)
    else if classes[5] == 'e' then Some(Delivered)
    else if classes[5] == 'd' then Some(Cancelled)
    else None
  }

  lemma KnownColorHue(s: Status)
    ensures HueStatus(KnownColor(s)) == Some(s)
  {
  }

  /** Gray marks exactly the strings outside the enum, and distinct statuses get
      distinct colours. */
  lemma StatusColorsDistinguish(status: string)
    ensures StatusColor(status) == FallbackColor <==> ParseStatus(status).None?
    ensures forall a: Status, b: Status :: KnownColor(a) == KnownColor(b) ==> a == b
  {
    assert HueStatus(FallbackColor) == None;
    if ParseStatus(status).Some? {
      KnownColorHue(ParseStatus(status).value);
    }
    forall a: Status, b: Status | KnownColor(a) == KnownColor(b)
      ensures a == b
    {
      KnownColorHue(a);
      KnownColorHue(b);
    }
  }

  /** `{n} item{n !== 1 ? 's' : ''}`. */
  function ItemCount(n: nat): (s: string)
    ensures |s| >= 6 && (s[|s| - 1] == 's' <==> n != 1)
  {
    Digits(n) + (if n != 1 then " items" else " item")
  }
}
