/** The order server actions (app/actions/order.ts): the search classification and
    paged listing, lookup by id, and the validated status update. */
module OrderActions {
  import opened Basics
  import opened Text
  import opened Seqs
  import opened Paging
  import opened OrderModel

  /** How `getOrders` reads its search term. */
  datatype OrderQuery = Everything | ByEmail(email: string) | ByNumber(number: string)

  /** The term is trimmed; empty means no filter, a term with `@` is a customer email
      (lower-cased), anything else an exact, case-sensitive order number. */
  function ClassifySearch(search: string): (q: OrderQuery)
    ensures q.Everything? <==> Trim(search) == []
    ensures q.ByEmail? <==> '@' in Trim(search)
    ensures q.ByEmail? ==> q.email == ToLower(Trim(search))
    ensures q.ByNumber? ==> q.number == Trim(search) && q.number != [] && '@' !in q.number
  {
    var term := Trim(search);
    if term == [] then Everything
    else if '@' in term then ByEmail(ToLower(term))
    else ByNumber(term)
  }

  predicate Selects(q: OrderQuery, o: Order) {
    match q
    case Everything => true
    case ByEmail(email) => o.customerEmail == email
    case ByNumber(number) => o.orderNumber == number
  }

  function Selecting(q: OrderQuery): Order -> bool {
    o => Selects(q, o)
  }

  /** The listing of an order-number search: the page is ignored, at most one
      order is taken, and the total is divided by 1. */
  function NumberListing(sorted: seq<Order>, page: int): (r: Listing<Order>)
    ensures r.success && r.pagination.currentPage == page && r.pagination.total == |sorted|
    ensures IsPage(r.items, sorted, 1, 1)
    ensures |r.items| == (if |sorted| == 0 then 0 else 1)
    ensures r.items == [] || r.items == [sorted[0]]
    ensures r.pagination.totalPages == |sorted|
    ensures r.pagination.hasMore <==> 1 < |sorted|
  {
    var items := Window(sorted, 0, 1);
    assert items == [] || items == [sorted[0]];
    Listing(true, None, items,
            Pagination(page, CeilDiv(|sorted|, 1), |sorted|, 0 + |items| < |sorted|))
  }

  /** The listing `getOrders` builds from the selected orders, newest first. A number
      search ignores the page. Otherwise a page below 1 asks the database for a negative
      skip, which it refuses, and the action answers with its failure envelope. */
  function QueryListing(sorted: seq<Order>, byNumber: bool, page: int, limit: int): (r: Listing<Order>)
    requires limit >= 1 && SortedDesc(sorted, OrderRecency)
    ensures !byNumber && page < 1 ==> r == Failed("Failed to fetch orders")
    ensures byNumber || page >= 1 ==>
      && r.success && r.pagination.currentPage == page && r.pagination.total == |sorted|
      && SortedDesc(r.items, OrderRecency)
      && (forall o :: o in r.items ==> o in sorted)
    ensures byNumber ==>
      && IsPage(r.items, sorted, 1, 1)
      && |r.items| == (if |sorted| == 0 then 0 else 1)
      && r.pagination.totalPages == |sorted|
      && (r.pagination.hasMore <==> 1 < |sorted|)
    ensures !byNumber && page >= 1 ==>
      && IsPage(r.items, sorted, page, limit)
      && |r.items| <= limit
      && r.pagination.totalPages == CeilDiv(|sorted|, limit)
      && (r.pagination.hasMore <==> page < r.pagination.totalPages)
  {
    if byNumber then
      NumberListing(sorted, page)
    else if page < 1 then
      Failed("Failed to fetch orders")
    else
      HasMoreIffLaterPage(sorted, page, limit);
      PageKeepsOrder(sorted, page, limit, OrderRecency);
      PageOf(sorted, page, limit)
  }

  /** The orders a search selects, newest first. */
  function SelectSorted(orders: seq<Order>, q: OrderQuery): (r: seq<Order>)
    ensures SortedDesc(r, OrderRecency)
    ensures |r| == |Filter(orders, Selecting(q))|
    ensures forall o :: o in r <==> o in orders && Selects(q, o)
  {
    var matches := Filter(orders, Selecting(q));
    var sorted := SortDesc(matches, OrderRecency);
    PermutationMembers(sorted, matches);
    sorted
  }

  /** `getOrders`: filter, sort newest first, then window. An order-number search
      ignores the page, takes at most one order and divides the total by 1; an
      email search pages like the unfiltered listing, and fails like it on a page
      below 1. */
  function GetOrders(db: Fetch<seq<Order>>, page: int, limit: int, search: string): (r: Listing<Order>)
    requires limit >= 1
    ensures db.Unavailable? ==> r == Failed("Failed to fetch orders")
    ensures db.Fetched? && !ClassifySearch(search).ByNumber? && page < 1 ==> r == Failed("Failed to fetch orders")
    ensures db.Fetched? && (ClassifySearch(search).ByNumber? || page >= 1) ==>
      var q := ClassifySearch(search);
      var total := |Filter(db.value, Selecting(q))|;
      && r.success
      && SortedDesc(r.items, OrderRecency)
      && (forall o :: o in r.items ==> o in db.value && Selects(q, o))
      && r.pagination.currentPage == page && r.pagination.total == total
      && (q.ByNumber? ==>
            && IsPage(r.items, SelectSorted(db.value, q), 1, 1)
            && |r.items| == (if total == 0 then 0 else 1)
            && r.pagination.totalPages == total
            && (r.pagination.hasMore <==> 1 < total))
      && (!q.ByNumber? ==>
            && IsPage(r.items, SelectSorted(db.value, q), page, limit)
            && |r.items| <= limit
            && r.pagination.totalPages == CeilDiv(total, limit)
            && (r.pagination.hasMore <==> page < r.pagination.totalPages))
  {
    match db
    case Unavailable => Failed("Failed to fetch orders")
    case Fetched(orders) =>
      var q := ClassifySearch(search);
      QueryListing(SelectSorted(orders, q), q.ByNumber?, page, limit)
  }

  /** Paging through an unfiltered or email listing loses and repeats nothing: the
      `k`-th selected order, newest first, is item `k % limit` of page `k / limit + 1`. */
  lemma OrderPagesLocate(orders: seq<Order>, search: string, limit: int, k: nat)
    requires limit >= 1 && !ClassifySearch(search).ByNumber?
    requires k < |SelectSorted(orders, ClassifySearch(search))|
    ensures var page := PageHolding(k, limit);
      var r := GetOrders(Fetched(orders), page, limit, search);
      k - Skip(page, limit) < |r.items| && r.items[k - Skip(page, limit)] == SelectSorted(orders, ClassifySearch(search))[k]
  {
    PageLocates(SelectSorted(orders, ClassifySearch(search)), limit, k);
  }

  /** Order numbers are unique, so an order-number search finds at most one order:
      it is on the only page, `hasMore` is false, and it is the order with that number. */
  lemma NumberSearchFindsAtMostOne(orders: seq<Order>, page: int, limit: int, search: string)
    requires limit >= 1
    requires UniqueOrderNumbers(orders)
    requires ClassifySearch(search).ByNumber?
    ensures var r := GetOrders(Fetched(orders), page, limit, search);
      && r.pagination.totalPages <= 1
      && !r.pagination.hasMore
      && forall o :: o in orders ==> (o in r.items <==> o.orderNumber == Trim(search))
  {
    var q := ClassifySearch(search);
    AtMostOneWithNumber(orders, q.number);
    var sorted := SelectSorted(orders, q);
    if |sorted| == 1 {
      assert Window(sorted, 0, 1) == sorted;
    }
  }

  lemma {:induction false} AtMostOneWithNumber(orders: seq<Order>, number: string)
    requires UniqueOrderNumbers(orders)
    ensures |Filter(orders, Selecting(ByNumber(number)))| <= 1
    decreases |orders|
  {
    if |orders| > 0 {
      var prefix := orders[..|orders| - 1];
      var last := orders[|orders| - 1];
      AtMostOneWithNumber(prefix, number);
      if last.orderNumber == number {
        forall x | x in prefix
          ensures !Selects(ByNumber(number), x)
        {
          var i :| 0 <= i < |prefix| && prefix[i] == x;
          assert orders[i] == x;
        }
        FilterNone(prefix, Selecting(ByNumber(number)));
      }
    }
  }

  /** Position of the first order with that id, as `findById` resolves it. */
  function FindOrder(orders: seq<Order>, id: Id): (r: Option<nat>)
    ensures r.Some? ==> r.value < |orders| && orders[r.value].id == id
    ensures r.Some? ==> forall k :: 0 <= k < r.value ==> orders[k].id != id
    ensures r.None? <==> forall k :: 0 <= k < |orders| ==> orders[k].id != id
    decreases |orders|
  {
    if |orders| == 0 then None
    else if orders[0].id == id then Some(0)
    else
      match FindOrder(orders[1..], id)
      case None =>
        assert forall k :: 1 <= k < |orders| ==> orders[k] == orders[1..][k - 1];
        None
      case Some(k) => Some(k + 1)
  }

  /** `getOrderById`: the order, "Order not found" when there is none, "Failed to fetch
      order" when the database cannot be read. */
  function GetOrderById(db: Fetch<seq<Order>>, id: Id): (r: Result<Order, string>)
    ensures db.Unavailable? ==> r == Err("Failed to fetch order")
    ensures db.Fetched? ==>
      && (r.Ok? ==> r.value in db.value && r.value.id == id)
      && (r.Err? <==> forall k :: 0 <= k < |db.value| ==> db.value[k].id != id)
      && (r.Err? ==> r.error == "Order not found")
  {
    match db
    case Unavailable => Err("Failed to fetch order")
    case Fetched(orders) =>
      match FindOrder(orders, id)
      case None => Err("Order not found")
      case Some(k) => Ok(orders[k])
  }

  datatype StatusReply = Updated(message: string, order: Order) | Refused(error: string)
  datatype StatusUpdate = StatusUpdate(orders: seq<Order>, reply: StatusReply)

  /** Two versions of one order that differ at most in `status`. */
  predicate SameButStatus(a: Order, b: Order) {
    a.(status := b.status) == b
  }

  /** `updateOrderStatus`: a name outside the enum is refused before any write; an
      unknown id is refused; otherwise only that order's `status` changes and the
      updated order is returned. */
  function UpdateOrderStatus(orders: seq<Order>, id: Id, newStatus: string): (r: StatusUpdate)
    ensures |r.orders| == |orders|
    ensures ParseStatus(newStatus).None? ==> r == StatusUpdate(orders, Refused("Invalid status"))
    ensures ParseStatus(newStatus).Some? && (forall k :: 0 <= k < |orders| ==> orders[k].id != id) ==>
      r == StatusUpdate(orders, Refused("Order not found"))
    ensures r.reply.Updated? ==>
      && ParseStatus(newStatus).Some?
      && r.reply.message == "Order status updated to " + newStatus
      && r.reply.order.id == id
      && StatusName(r.reply.order.status) == newStatus
      && r.reply.order in r.orders
    ensures forall k :: 0 <= k < |orders| ==> SameButStatus(orders[k], r.orders[k])
    ensures forall k :: 0 <= k < |orders| && orders[k].id != id ==> r.orders[k] == orders[k]
    ensures UniqueIds(orders) && ParseStatus(newStatus).Some? ==>
      forall k :: 0 <= k < |orders| && orders[k].id == id ==>
        r.reply.Updated? && r.orders[k] == r.reply.order
    ensures ValidOrderStore(orders) ==> ValidOrderStore(r.orders)
  {
    match ParseStatus(newStatus)
    case None => StatusUpdate(orders, Refused("Invalid status"))
    case Some(s) =>
      match FindOrder(orders, id)
      case None => StatusUpdate(orders, Refused("Order not found"))
      case Some(k) =>
        var updated := orders[k].(status := s);
        assert orders[k := updated][k] == updated;
        StatusUpdate(orders[k := updated], Updated("Order status updated to " + newStatus, updated))
  }
}
