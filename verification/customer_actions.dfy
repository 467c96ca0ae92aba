/** The customer server actions (app/actions/customer.ts): customers are not stored but
    derived by grouping orders by `customerEmail`. */
module CustomerActions {
  import opened Basics
  import opened Calendar
  import opened Text
  import opened Seqs
  import opened Paging
  import opened OrderModel

  /** One `$group` output row, after the `$project` that renames `_id` to `email`. */
  datatype Customer = Customer(
    email: string,
    totalOrders: nat,
    lifetimeValue: real,
    lastOrderDate: Timestamp,
    firstOrderDate: Timestamp)

  /** Sort key for `{ lifetimeValue: -1 }`. */
  function LifetimeValue(c: Customer): real {
    c.lifetimeValue
  }

  function WithEmail(email: string): Order -> bool {
    (o: Order) => o.customerEmail == email
  }

  /** The orders placed under exactly this email. */
  function OrdersOf(orders: seq<Order>, email: string): seq<Order> {
    Filter(orders, WithEmail(email))
  }

  // ---------------------------------------------------------------------------
  // Reference definition: the statistics of one email, computed on its own orders.
  // ---------------------------------------------------------------------------

  /** The latest `createdAt` of a non-empty list of orders (`$max`). */
  function LatestDate(os: seq<Order>): Timestamp
    requires |os| > 0
    decreases |os|
  {
    if |os| == 1 then os[0].createdAt
    else Later(LatestDate(os[..|os| - 1]), os[|os| - 1].createdAt)
  }

  /** The earliest `createdAt` of a non-empty list of orders (`$min`). */
  function EarliestDate(os: seq<Order>): Timestamp
    requires |os| > 0
    decreases |os|
  {
    if |os| == 1 then os[0].createdAt
    else Earlier(EarliestDate(os[..|os| - 1]), os[|os| - 1].createdAt)
  }

  /** `LatestDate` is the date of one of the orders and no order is later. */
  lemma {:induction false} LatestDateIsMax(os: seq<Order>)
    requires |os| > 0
    ensures exists k :: 0 <= k < |os| && os[k].createdAt == LatestDate(os)
    ensures forall k :: 0 <= k < |os| ==> os[k].createdAt.epochMs <= LatestDate(os).epochMs
    decreases |os|
  {
    if |os| > 1 {
      var prefix := os[..|os| - 1];
      LatestDateIsMax(prefix);
      assert LatestDate(os) == Later(LatestDate(prefix), os[|os| - 1].createdAt);
      if LatestDate(os) == os[|os| - 1].createdAt {
        assert 0 <= |os| - 1 < |os| && os[|os| - 1].createdAt == LatestDate(os);
      } else {
        var k :| 0 <= k < |prefix| && prefix[k].createdAt == LatestDate(prefix);
        assert os[k] == prefix[k];
        assert 0 <= k < |os| && os[k].createdAt == LatestDate(os);
      }
      forall i | 0 <= i < |os| - 1
        ensures os[i].createdAt.epochMs <= LatestDate(os).epochMs
      {
        assert os[i] == prefix[i];
      }
    } else {
      assert os[0].createdAt == LatestDate(os);
    }
  }

  /** `EarliestDate` is the date of one of the orders and no order is earlier. */
  lemma {:induction false} EarliestDateIsMin(os: seq<Order>)
    requires |os| > 0
    ensures exists k :: 0 <= k < |os| && os[k].createdAt == EarliestDate(os)
    ensures forall k :: 0 <= k < |os| ==> EarliestDate(os).epochMs <= os[k].createdAt.epochMs
    decreases |os|
  {
    if |os| > 1 {
      var prefix := os[..|os| - 1];
      EarliestDateIsMin(prefix);
      assert EarliestDate(os) == Earlier(EarliestDate(prefix), os[|os| - 1].createdAt);
      if EarliestDate(os) == os[|os| - 1].createdAt {
        assert 0 <= |os| - 1 < |os| && os[|os| - 1].createdAt == EarliestDate(os);
      } else {
        var k :| 0 <= k < |prefix| && prefix[k].createdAt == EarliestDate(prefix);
        assert os[k] == prefix[k];
        assert 0 <= k < |os| && os[k].createdAt == EarliestDate(os);
      }
      forall i | 0 <= i < |os| - 1
        ensures EarliestDate(os).epochMs <= os[i].createdAt.epochMs
      {
        assert os[i] == prefix[i];
      }
    } else {
      assert os[0].createdAt == EarliestDate(os);
    }
  }

  /** What the customer with this email should look like: the count and total of
      their orders, and their latest and earliest order dates. */
  function Summary(orders: seq<Order>, email: string): Customer
    requires OrdersOf(orders, email) != []
  {
    var mine := OrdersOf(orders, email);
    Customer(email, |mine|, SumOf(mine, Amount), LatestDate(mine), EarliestDate(mine))
  }

  /** `c` is the reference summary of its own email over `orders`. */
  predicate RowOf(orders: seq<Order>, c: Customer) {
    OrdersOf(orders, c.email) != [] && c == Summary(orders, c.email)
  }

  // ---------------------------------------------------------------------------
  // The aggregation as the database runs it: one pass over the orders, updating
  // the row of the order's email or opening a new one.
  // ---------------------------------------------------------------------------

  function Opened(o: Order): Customer {
    Customer(o.customerEmail, 1, o.totalAmount, o.createdAt, o.createdAt)
  }

  function Merged(c: Customer, o: Order): Customer {
    c.(totalOrders := c.totalOrders + 1,
       lifetimeValue := c.lifetimeValue + o.totalAmount,
       lastOrderDate := Later(c.lastOrderDate, o.createdAt),
       firstOrderDate := Earlier(c.firstOrderDate, o.createdAt))
  }

  /** Feeds one order to the `$group` accumulators. */
  function Absorb(groups: seq<Customer>, o: Order): seq<Customer>
    decreases |groups|
  {
    if |groups| == 0 then [Opened(o)]
    else if groups[0].email == o.customerEmail then [Merged(groups[0], o)] + groups[1..]
    else [groups[0]] + Absorb(groups[1..], o)
  }

  /** `$group` by `customerEmail` with `$sum: 1`, `$sum: '$totalAmount'`,
      `$max: '$createdAt'` and `$min: '$createdAt'`. */
  function GroupByEmail(orders: seq<Order>): seq<Customer>
    decreases |orders|
  {
    if |orders| == 0 then []
    else Absorb(GroupByEmail(orders[..|orders| - 1]), orders[|orders| - 1])
  }

  predicate DistinctEmails(groups: seq<Customer>) {
    forall i, j :: 0 <= i < j < |groups| ==> groups[i].email != groups[j].email
  }

  /** `groups` is the grouping of `orders`: one row per distinct email and nothing
      else, each row equal to the reference summary of its email. */
  predicate Summarizes(groups: seq<Customer>, orders: seq<Order>) {
    && DistinctEmails(groups)
    && (forall i :: 0 <= i < |groups| ==> RowOf(orders, groups[i]))
    && (forall o :: o in orders ==> exists i :: 0 <= i < |groups| && groups[i].email == o.customerEmail)
  }

  /** Absorbing an order updates the row of its email in place, or appends a new row. */
  lemma {:induction false} AbsorbShape(groups: seq<Customer>, o: Order)
    requires DistinctEmails(groups)
    ensures (forall i :: 0 <= i < |groups| ==> groups[i].email != o.customerEmail) ==>
      Absorb(groups, o) == groups + [Opened(o)]
    ensures forall i :: 0 <= i < |groups| && groups[i].email == o.customerEmail ==>
      Absorb(groups, o) == groups[i := Merged(groups[i], o)]
    decreases |groups|
  {
    if |groups| > 0 && groups[0].email != o.customerEmail {
      var rest := groups[1..];
      assert DistinctEmails(rest);
      AbsorbShape(rest, o);
      forall i | 0 <= i < |groups| && groups[i].email == o.customerEmail
        ensures Absorb(groups, o) == groups[i := Merged(groups[i], o)]
      {
        assert rest[i - 1] == groups[i];
        assert [groups[0]] + rest[i - 1 := Merged(rest[i - 1], o)] == groups[i := Merged(groups[i], o)];
      }
    }
  }

  /** The orders of an email after one more order arrives. */
  lemma OrdersOfAppend(orders: seq<Order>, o: Order, email: string)
    ensures OrdersOf(orders + [o], email) ==
      OrdersOf(orders, email) + (if o.customerEmail == email then [o] else [])
  {
    assert (orders + [o])[..|orders|] == orders;
  }

  /** The reference summary after one more order: unchanged for other emails,
      opened or merged for the order's own email. */
  lemma SummaryAppend(orders: seq<Order>, o: Order, email: string)
    requires OrdersOf(orders + [o], email) != []
    ensures o.customerEmail != email ==>
      OrdersOf(orders, email) != [] && Summary(orders + [o], email) == Summary(orders, email)
    ensures o.customerEmail == email && OrdersOf(orders, email) == [] ==>
      Summary(orders + [o], email) == Opened(o)
    ensures o.customerEmail == email && OrdersOf(orders, email) != [] ==>
      Summary(orders + [o], email) == Merged(Summary(orders, email), o)
  {
    OrdersOfAppend(orders, o, email);
    var mine := OrdersOf(orders, email);
    if o.customerEmail == email {
      var mine' := mine + [o];
      assert mine'[..|mine'| - 1] == mine;
      if mine == [] {
        assert mine' == [o];
        assert SumOf(mine', Amount) == 0.0 + o.totalAmount;
      }
    } else {
      assert mine + [] == mine;
    }
  }

  /** A row of another email is still exact after the order arrives. */
  lemma OtherRowStays(orders: seq<Order>, o: Order, c: Customer)
    requires RowOf(orders, c) && c.email != o.customerEmail
    ensures RowOf(orders + [o], c)
  {
    OrdersOfAppend(orders, o, c.email);
    SummaryAppend(orders, o, c.email);
  }

  /** The row of the order's email, merged with the order, is exact afterwards. */
  lemma MergedRowExact(orders: seq<Order>, o: Order, c: Customer)
    requires RowOf(orders, c) && c.email == o.customerEmail
    ensures RowOf(orders + [o], Merged(c, o))
  {
    OrdersOfAppend(orders, o, c.email);
    SummaryAppend(orders, o, c.email);
  }

  /** The first order of an email opens an exact row. */
  lemma OpenedRowExact(orders: seq<Order>, o: Order)
    requires forall x :: x in orders ==> x.customerEmail != o.customerEmail
    ensures RowOf(orders + [o], Opened(o))
  {
    FilterNone(orders, WithEmail(o.customerEmail));
    OrdersOfAppend(orders, o, o.customerEmail);
    SummaryAppend(orders, o, o.customerEmail);
  }

  /** An order with a new email: its row is appended. */
  lemma AbsorbNewEmail(groups: seq<Customer>, orders: seq<Order>, o: Order)
    requires Summarizes(groups, orders)
    requires forall i :: 0 <= i < |groups| ==> groups[i].email != o.customerEmail
    ensures Summarizes(groups + [Opened(o)], orders + [o])
  {
    var g' := groups + [Opened(o)];
    NewEmailRowsExact(groups, orders, o, g');
    NewEmailCovers(groups, orders, o, g');
  }

  /** With a new email, the old rows stay exact and the opened row is exact. */
  lemma NewEmailRowsExact(groups: seq<Customer>, orders: seq<Order>, o: Order, g': seq<Customer>)
    requires Summarizes(groups, orders)
    requires forall i :: 0 <= i < |groups| ==> groups[i].email != o.customerEmail
    requires g' == groups + [Opened(o)]
    ensures forall i :: 0 <= i < |g'| ==> RowOf(orders + [o], g'[i])
  {
    forall x | x in orders
      ensures x.customerEmail != o.customerEmail
    {
      var i :| 0 <= i < |groups| && groups[i].email == x.customerEmail;
    }
    OpenedRowExact(orders, o);
    forall i | 0 <= i < |g'|
      ensures RowOf(orders + [o], g'[i])
    {
      if i < |groups| {
        OtherRowStays(orders, o, groups[i]);
      }
    }
  }

  /** With a new email, every email with orders still has a row, and emails stay distinct. */
  lemma NewEmailCovers(groups: seq<Customer>, orders: seq<Order>, o: Order, g': seq<Customer>)
    requires Summarizes(groups, orders)
    requires forall i :: 0 <= i < |groups| ==> groups[i].email != o.customerEmail
    requires g' == groups + [Opened(o)]
    ensures forall x :: x in orders + [o] ==> exists i :: 0 <= i < |g'| && g'[i].email == x.customerEmail
    ensures DistinctEmails(g')
  {
    forall x | x in orders + [o]
      ensures exists i :: 0 <= i < |g'| && g'[i].email == x.customerEmail
    {
      if x in orders {
        var i :| 0 <= i < |groups| && groups[i].email == x.customerEmail;
        assert g'[i] == groups[i];
      } else {
        assert g'[|groups|].email == x.customerEmail;
      }
    }
  }

  /** An order with a known email: its row is merged in place. */
  lemma AbsorbKnownEmail(groups: seq<Customer>, orders: seq<Order>, o: Order, j: nat)
    requires Summarizes(groups, orders)
    requires j < |groups| && groups[j].email == o.customerEmail
    ensures Summarizes(groups[j := Merged(groups[j], o)], orders + [o])
  {
    var g' := groups[j := Merged(groups[j], o)];
    KnownEmailRowsExact(groups, orders, o, j, g');
    KnownEmailCovers(groups, orders, o, j, g');
    MergedKeepsDistinct(groups, o, j, g');
  }

  /** Merging an order into a row keeps the row's email, so the emails stay distinct. */
  lemma MergedKeepsDistinct(groups: seq<Customer>, o: Order, j: nat, g': seq<Customer>)
    requires DistinctEmails(groups) && j < |groups|
    requires g' == groups[j := Merged(groups[j], o)]
    ensures DistinctEmails(g')
  {
    assert forall i :: 0 <= i < |g'| ==> g'[i].email == groups[i].email;
  }

  /** After merging, every row is still the exact summary of its email. */
  lemma KnownEmailRowsExact(groups: seq<Customer>, orders: seq<Order>, o: Order, j: nat, g': seq<Customer>)
    requires DistinctEmails(groups) && forall i :: 0 <= i < |groups| ==> RowOf(orders, groups[i])
    requires j < |groups| && groups[j].email == o.customerEmail
    requires g' == groups[j := Merged(groups[j], o)]
    ensures forall i :: 0 <= i < |g'| ==> RowOf(orders + [o], g'[i])
  {
    MergedRowExact(orders, o, groups[j]);
    forall i | 0 <= i < |g'|
      ensures RowOf(orders + [o], g'[i])
    {
      if i != j {
        OtherRowStays(orders, o, groups[i]);
      }
    }
  }

  /** After merging, every order still has the row of its email. */
  lemma KnownEmailCovers(groups: seq<Customer>, orders: seq<Order>, o: Order, j: nat, g': seq<Customer>)
    requires forall x :: x in orders ==> exists i :: 0 <= i < |groups| && groups[i].email == x.customerEmail
    requires j < |groups| && groups[j].email == o.customerEmail
    requires g' == groups[j := Merged(groups[j], o)]
    ensures forall x :: x in orders + [o] ==> exists i :: 0 <= i < |g'| && g'[i].email == x.customerEmail
  {
    forall x | x in orders + [o]
      ensures exists i :: 0 <= i < |g'| && g'[i].email == x.customerEmail
    {
      if x in orders {
        var i :| 0 <= i < |groups| && groups[i].email == x.customerEmail;
        assert g'[i].email == groups[i].email;
      } else {
        assert g'[j].email == x.customerEmail;
      }
    }
  }

  /** One `$group` step keeps the grouping exact. */
  lemma AbsorbSummarizes(groups: seq<Customer>, orders: seq<Order>, o: Order)
    requires Summarizes(groups, orders)
    ensures Summarizes(Absorb(groups, o), orders + [o])
  {
    AbsorbShape(groups, o);
    if forall i :: 0 <= i < |groups| ==> groups[i].email != o.customerEmail {
      AbsorbNewEmail(groups, orders, o);
    } else {
      var j :| 0 <= j < |groups| && groups[j].email == o.customerEmail;
      AbsorbKnownEmail(groups, orders, o, j);
    }
  }

  /** The one-pass aggregation computes exactly the reference summaries: one row per
      distinct `customerEmail`, with its order count, lifetime value, and latest and
      earliest order dates. */
  lemma {:induction false} GroupByEmailSummarizes(orders: seq<Order>)
    ensures Summarizes(GroupByEmail(orders), orders)
    decreases |orders|
  {
    if |orders| > 0 {
      var prefix := orders[..|orders| - 1];
      var last := orders[|orders| - 1];
      assert prefix + [last] == orders;
      assert GroupByEmail(orders) == Absorb(GroupByEmail(prefix), last);
      GroupByEmailSummarizes(prefix);
      AbsorbSummarizes(GroupByEmail(prefix), prefix, last);
    }
  }

  /** Every grouped customer satisfies the reference properties: its row counts and
      sums its own orders, and its dates bound all of them, first <= last. */
  lemma SummaryMeaning(orders: seq<Order>, email: string)
    requires OrdersOf(orders, email) != []
    ensures var c := Summary(orders, email);
      && c.totalOrders == |OrdersOf(orders, email)| >= 1
      && c.lifetimeValue == SumOf(OrdersOf(orders, email), Amount)
      && (forall o :: o in orders && o.customerEmail == email ==>
            c.firstOrderDate.epochMs <= o.createdAt.epochMs <= c.lastOrderDate.epochMs)
      && (exists o :: o in orders && o.customerEmail == email && o.createdAt == c.lastOrderDate)
      && (exists o :: o in orders && o.customerEmail == email && o.createdAt == c.firstOrderDate)
  {
    var mine := OrdersOf(orders, email);
    var c := Summary(orders, email);
    LatestDateIsMax(mine);
    EarliestDateIsMin(mine);
    forall o | o in orders && o.customerEmail == email
      ensures c.firstOrderDate.epochMs <= o.createdAt.epochMs <= c.lastOrderDate.epochMs
    {
      assert o in mine;
    }
    var k :| 0 <= k < |mine| && mine[k].createdAt == c.lastOrderDate;
    assert mine[k] in mine;
    var m :| 0 <= m < |mine| && mine[m].createdAt == c.firstOrderDate;
    assert mine[m] in mine;
  }

  // ---------------------------------------------------------------------------
  // getCustomers
  // ---------------------------------------------------------------------------

  /** The customer search term: trimmed, then lower-cased; empty means no filter. */
  function NormalizeSearch(search: string): (term: string)
    ensures term == [] <==> Trim(search) == []
    ensures forall k :: 0 <= k < |term| ==> !IsUpper(term[k])
    ensures |term| == |Trim(search)|
    ensures forall k :: 0 <= k < |term| ==> term[k] == LowerChar(Trim(search)[k])
  {
    ToLower(Trim(search))
  }

  /** The grouped customers, largest lifetime value first (`$sort: { lifetimeValue: -1 }`). */
  function RankedCustomers(orders: seq<Order>): (r: seq<Customer>)
    ensures SortedDesc(r, LifetimeValue)
    ensures Summarizes(r, orders)
    ensures |r| == |GroupByEmail(orders)|
  {
    var groups := GroupByEmail(orders);
    GroupByEmailSummarizes(orders);
    var r := SortDesc(groups, LifetimeValue);
    RankingKeepsGrouping(groups, r, orders);
    r
  }

  /** Reordering the rows of a grouping leaves a grouping. */
  lemma RankingKeepsGrouping(groups: seq<Customer>, r: seq<Customer>, orders: seq<Order>)
    requires Summarizes(groups, orders) && multiset(r) == multiset(groups)
    ensures Summarizes(r, orders)
  {
    PermutationMembers(r, groups);
    PermutationKeepsDistinct(groups, r);
    forall i | 0 <= i < |r|
      ensures RowOf(orders, r[i])
    {
      assert r[i] in groups;
    }
    forall o | o in orders
      ensures exists i :: 0 <= i < |r| && r[i].email == o.customerEmail
    {
      var g :| 0 <= g < |groups| && groups[g].email == o.customerEmail;
      assert groups[g] in r;
    }
  }

  /** Reordering rows with distinct emails keeps them distinct. */
  lemma PermutationKeepsDistinct(groups: seq<Customer>, r: seq<Customer>)
    requires DistinctEmails(groups) && multiset(r) == multiset(groups)
    ensures DistinctEmails(r)
  {
    PermutationMembers(r, groups);
    forall i, j | 0 <= i < j < |r|
      ensures r[i].email != r[j].email
    {
      assert r[i] in groups && r[j] in groups;
      var a :| 0 <= a < |groups| && groups[a] == r[i];
      var b :| 0 <= b < |groups| && groups[b] == r[j];
      RowOccursOnce(groups, a);
      OccursOnceUnique(r, i, j);
    }
  }

  /** In rows with distinct emails, every row occurs exactly once. */
  lemma RowOccursOnce(groups: seq<Customer>, a: nat)
    requires DistinctEmails(groups) && a < |groups|
    ensures multiset(groups)[groups[a]] == 1
  {
    assert groups == groups[..a] + [groups[a]] + groups[a + 1..];
    assert groups[a] !in groups[..a];
    assert groups[a] !in groups[a + 1..];
  }

  /** An element counted once in the multiset sits at one position only. */
  lemma OccursOnceUnique<T>(s: seq<T>, i: nat, j: nat)
    requires i < j < |s| && multiset(s)[s[i]] == 1
    ensures s[i] != s[j]
  {
    assert s == s[..i] + [s[i]] + s[i + 1..j] + [s[j]] + s[j + 1..];
  }

  /** `getCustomers`. Without a search: group, rank, then cut the requested page out of
      the ranking with `slice`, so a page below 1 counts back from the end of the
      ranking instead of failing. With a search: group only that email's orders and
      return everything unsliced, with one page and `hasMore` false. */
  function GetCustomers(db: Fetch<seq<Order>>, page: int, limit: int, search: string): (r: Listing<Customer>)
    requires limit >= 1
    ensures db.Unavailable? ==> r == Failed("Failed to fetch customers")
    ensures db.Fetched? ==>
      && r.success
      && r.pagination.currentPage == page
      && SortedDesc(r.items, LifetimeValue)
      && (forall c :: c in r.items ==> RowOf(db.value, c))
    ensures db.Fetched? && NormalizeSearch(search) == [] ==>
      && r.pagination.total == |GroupByEmail(db.value)|
      && |r.items| <= limit
      && r.pagination.totalPages == CeilDiv(r.pagination.total, limit)
    ensures db.Fetched? && NormalizeSearch(search) == [] && page >= 1 ==>
      && IsPage(r.items, RankedCustomers(db.value), page, limit)
      && (r.pagination.hasMore <==> page < r.pagination.totalPages)
    ensures db.Fetched? && NormalizeSearch(search) == [] && page == 0 ==>
      r.items == [] && r.pagination.hasMore
    ensures db.Fetched? && NormalizeSearch(search) == [] && page < 0 ==>
      && IsSpan(r.items, RankedCustomers(db.value), r.pagination.total + (page - 1) * limit, limit)
      && r.pagination.hasMore
    ensures db.Fetched? && NormalizeSearch(search) != [] ==>
      && r.pagination.totalPages == 1
      && !r.pagination.hasMore
      && r.pagination.total == |r.items| <= 1
      && (forall c :: c in r.items ==> c.email == NormalizeSearch(search))
      && (r.items == [] <==> OrdersOf(db.value, NormalizeSearch(search)) == [])
  {
    match db
    case Unavailable => Failed("Failed to fetch customers")
    case Fetched(orders) =>
      var term := NormalizeSearch(search);
      if term == [] then
        var ranked := RankedCustomers(orders);
        SlicePageKeepsOrder(ranked, page, limit, LifetimeValue);
        if page >= 1 then
          HasMoreIffLaterPage(ranked, page, limit);
          SlicePage(ranked, page, limit)
        else
          SlicePage(ranked, page, limit)
      else
        var ranked := SearchedCustomers(orders, term);
        Listing(true, None, ranked, Pagination(page, 1, |ranked|, false))
  }

  /** Paging through the unsearched customer list loses and repeats nothing: the
      `k`-th customer by lifetime value is item `k % limit` of page `k / limit + 1`. */
  lemma CustomerPagesLocate(orders: seq<Order>, search: string, limit: int, k: nat)
    requires limit >= 1 && NormalizeSearch(search) == [] && k < |RankedCustomers(orders)|
    ensures var page := PageHolding(k, limit);
      var r := GetCustomers(Fetched(orders), page, limit, search);
      k - Skip(page, limit) < |r.items| && r.items[k - Skip(page, limit)] == RankedCustomers(orders)[k]
  {
    PageLocates(RankedCustomers(orders), limit, k);
  }

  /** The result of an exact-email customer search: at most one row, the same row the
      unfiltered grouping has for that email. */
  function SearchedCustomers(orders: seq<Order>, term: string): (r: seq<Customer>)
    ensures |r| <= 1
    ensures SortedDesc(r, LifetimeValue)
    ensures forall c :: c in r ==> c.email == term && RowOf(orders, c)
    ensures r == [] <==> OrdersOf(orders, term) == []
  {
    var r := RankedCustomers(OrdersOf(orders, term));
    SearchedRows(orders, term, r);
    r
  }

  /** The grouping of one email's orders is that email's row, if it has orders. */
  lemma SearchedRows(orders: seq<Order>, term: string, r: seq<Customer>)
    requires Summarizes(r, OrdersOf(orders, term))
    requires |r| == |GroupByEmail(OrdersOf(orders, term))|
    ensures |r| <= 1
    ensures forall c :: c in r ==> c.email == term && RowOf(orders, c)
    ensures r == [] <==> OrdersOf(orders, term) == []
  {
    var mine := OrdersOf(orders, term);
    FilterTwice(orders, term);
    forall c | c in r
      ensures c.email == term && RowOf(orders, c)
    {
      var x := OrdersOf(mine, c.email)[0];
      assert x in OrdersOf(mine, c.email);
    }
    OneEmailOneRow(mine, term);
    if mine != [] {
      assert mine[0] in mine;
    }
  }

  /** Orders that all carry one email group into at most one row. */
  lemma {:induction false} OneEmailOneRow(orders: seq<Order>, email: string)
    requires forall o :: o in orders ==> o.customerEmail == email
    ensures |GroupByEmail(orders)| <= 1
    ensures forall c :: c in GroupByEmail(orders) ==> c.email == email
    decreases |orders|
  {
    if |orders| > 0 {
      var prefix := orders[..|orders| - 1];
      var last := orders[|orders| - 1];
      assert last in orders;
      forall o | o in prefix
        ensures o.customerEmail == email
      {
        assert o in orders;
      }
      OneEmailOneRow(prefix, email);
      var g := GroupByEmail(prefix);
      if |g| == 1 {
        assert g[0] in g;
        assert Absorb(g, last) == [Merged(g[0], last)] + g[1..];
      }
    }
  }

  /** Filtering an email's orders by the same email changes nothing. */
  lemma {:induction false} FilterTwice(orders: seq<Order>, email: string)
    ensures OrdersOf(OrdersOf(orders, email), email) == OrdersOf(orders, email)
    decreases |orders|
  {
    if |orders| > 0 {
      var prefix := orders[..|orders| - 1];
      var last := orders[|orders| - 1];
      var tail := if last.customerEmail == email then [last] else [];
      FilterTwice(prefix, email);
      assert OrdersOf(orders, email) == OrdersOf(prefix, email) + tail;
      FilterConcat(OrdersOf(prefix, email), tail, WithEmail(email));
      assert Filter(tail, WithEmail(email)) == tail by {
        if tail != [] {
          assert tail[..0] == [];
        }
      }
    }
  }

  // ---------------------------------------------------------------------------
  // getCustomerDetails
  // ---------------------------------------------------------------------------

  datatype CustomerDetail = CustomerDetail(
    email: string,
    totalOrders: nat,
    lifetimeValue: real,
    averageOrderValue: real,
    lastOrderDate: Timestamp,
    firstOrderDate: Timestamp)

  datatype Details = Details(customer: CustomerDetail, orders: seq<Order>)

  /** The statistics `getCustomerDetails` reads off the newest-first order list. */
  function DetailOf(email: string, sorted: seq<Order>): CustomerDetail
    requires sorted != []
  {
    var total := |sorted|;
    var value := SumOf(sorted, Amount);
    CustomerDetail(email, total, value, value / (total as real),
                   sorted[0].createdAt, sorted[total - 1].createdAt)
  }

  /** Read off any newest-first arrangement of a customer's orders, the statistics are
      the count, the total, and the latest and earliest order dates. */
  lemma DetailMeaning(mine: seq<Order>, sorted: seq<Order>, email: string)
    requires mine != [] && |sorted| == |mine|
    requires multiset(sorted) == multiset(mine) && SortedDesc(sorted, OrderRecency)
    ensures var d := DetailOf(email, sorted);
      && d.email == email
      && d.totalOrders == |mine|
      && d.lifetimeValue == SumOf(mine, Amount)
      && d.lastOrderDate.epochMs >= d.firstOrderDate.epochMs
      && (forall o :: o in mine ==> d.firstOrderDate.epochMs <= o.createdAt.epochMs <= d.lastOrderDate.epochMs)
  {
    SumPermutation(sorted, mine, Amount);
    NewestFirstBounds(mine, sorted);
    PermutationMembers(sorted, mine);
    assert sorted[0] in mine;
  }

  /** In a newest-first arrangement, the first order is the latest and the last the earliest. */
  lemma NewestFirstBounds(mine: seq<Order>, sorted: seq<Order>)
    requires sorted != [] && multiset(sorted) == multiset(mine) && SortedDesc(sorted, OrderRecency)
    ensures forall o :: o in mine ==>
      sorted[|sorted| - 1].createdAt.epochMs <= o.createdAt.epochMs <= sorted[0].createdAt.epochMs
  {
    PermutationMembers(sorted, mine);
    var n := |sorted|;
    forall o | o in mine
      ensures sorted[n - 1].createdAt.epochMs <= o.createdAt.epochMs <= sorted[0].createdAt.epochMs
    {
      var k :| 0 <= k < n && sorted[k] == o;
      assert OrderRecency(sorted[0]) >= OrderRecency(sorted[k]) || k == 0;
      assert OrderRecency(sorted[k]) >= OrderRecency(sorted[n - 1]) || k == n - 1;
    }
  }

  /** `getCustomerDetails`: the orders of exactly this email (not lower-cased), newest
      first, and statistics read off that list: the count, the total, the average,
      the date of the first (newest) and of the last (oldest) order. */
  function GetCustomerDetails(db: Fetch<seq<Order>>, email: string): (r: Result<Details, string>)
    ensures db.Unavailable? ==> r == Err("Failed to fetch customer details")
    ensures db.Fetched? ==> (r == Err("Customer not found") <==> OrdersOf(db.value, email) == [])
    ensures r.Ok? ==>
      var d := r.value.customer;
      var mine := OrdersOf(db.value, email);
      && db.Fetched? && mine != []
      && multiset(r.value.orders) == multiset(mine)
      && SortedDesc(r.value.orders, OrderRecency)
      && d.email == email
      && d.totalOrders == |mine| > 0
      && d.lifetimeValue == SumOf(mine, Amount)
      && d.averageOrderValue == d.lifetimeValue / (d.totalOrders as real)
      && d.lastOrderDate == r.value.orders[0].createdAt
      && d.firstOrderDate == r.value.orders[|r.value.orders| - 1].createdAt
      && (forall o :: o in mine ==> d.firstOrderDate.epochMs <= o.createdAt.epochMs <= d.lastOrderDate.epochMs)
  {
    match db
    case Unavailable => Err("Failed to fetch customer details")
    case Fetched(orders) =>
      var mine := OrdersOf(orders, email);
      var sorted := SortDesc(mine, OrderRecency);
      if |sorted| == 0 then Err("Customer not found")
      else
        DetailMeaning(mine, sorted, email);
        Ok(Details(DetailOf(email, sorted), sorted))
  }

  /** The average order value shown on the detail page lies between the customer's
      smallest and largest order total. */
  lemma AverageWithinOrderTotals(orders: seq<Order>, email: string)
    requires OrdersOf(orders, email) != []
    ensures var r := GetCustomerDetails(Fetched(orders), email);
      && r.Ok?
      && (exists o :: o in OrdersOf(orders, email) && o.totalAmount <= r.value.customer.averageOrderValue)
      && (exists o :: o in OrdersOf(orders, email) && r.value.customer.averageOrderValue <= o.totalAmount)
  {
    var mine := OrdersOf(orders, email);
    MeanWithinRange(mine, Amount);
    var i :| 0 <= i < |mine| && Amount(mine[i]) <= SumOf(mine, Amount) / (|mine| as real);
    var j :| 0 <= j < |mine| && SumOf(mine, Amount) / (|mine| as real) <= Amount(mine[j]);
    assert mine[i] in mine && mine[j] in mine;
  }

  /** The detail page and the customer list agree: same count, same lifetime value,
      and the same latest and earliest order instants. */
  lemma DetailsAgreeWithListing(orders: seq<Order>, email: string)
    requires OrdersOf(orders, email) != []
    ensures var r := GetCustomerDetails(Fetched(orders), email);
      var c := Summary(orders, email);
      && r.Ok?
      && r.value.customer.totalOrders == c.totalOrders
      && r.value.customer.lifetimeValue == c.lifetimeValue
      && r.value.customer.lastOrderDate.epochMs == c.lastOrderDate.epochMs
      && r.value.customer.firstOrderDate.epochMs == c.firstOrderDate.epochMs
  {
    var mine := OrdersOf(orders, email);
    var sorted := SortDesc(mine, OrderRecency);
    DetailAgreesWithSummary(orders, email, sorted);
  }

  /** Statistics read off a newest-first list equal the reference summary. */
  lemma DetailAgreesWithSummary(orders: seq<Order>, email: string, sorted: seq<Order>)
    requires OrdersOf(orders, email) != [] && |sorted| == |OrdersOf(orders, email)|
    requires multiset(sorted) == multiset(OrdersOf(orders, email)) && SortedDesc(sorted, OrderRecency)
    ensures var d := DetailOf(email, sorted);
      var c := Summary(orders, email);
      && d.totalOrders == c.totalOrders
      && d.lifetimeValue == c.lifetimeValue
      && d.lastOrderDate.epochMs == c.lastOrderDate.epochMs
      && d.firstOrderDate.epochMs == c.firstOrderDate.epochMs
  {
    var mine := OrdersOf(orders, email);
    DetailMeaning(mine, sorted, email);
    NewestFirstDates(mine, sorted);
  }

  /** The ends of a newest-first arrangement carry the latest and the earliest instants. */
  lemma NewestFirstDates(mine: seq<Order>, sorted: seq<Order>)
    requires mine != [] && |sorted| == |mine|
    requires multiset(sorted) == multiset(mine) && SortedDesc(sorted, OrderRecency)
    ensures sorted[0].createdAt.epochMs == LatestDate(mine).epochMs
    ensures sorted[|sorted| - 1].createdAt.epochMs == EarliestDate(mine).epochMs
  {
    NewestFirstBounds(mine, sorted);
    PermutationMembers(sorted, mine);
    assert sorted[0] in mine && sorted[|sorted| - 1] in mine;
    LatestDateIsMax(mine);
    EarliestDateIsMin(mine);
    var a :| 0 <= a < |mine| && mine[a].createdAt == LatestDate(mine);
    var b :| 0 <= b < |mine| && mine[b].createdAt == EarliestDate(mine);
    assert mine[a] in mine && mine[b] in mine;
  }
}
