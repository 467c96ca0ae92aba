/** The `Order` document (models/Order.ts): its fields, the status enumeration with
    its default, the required fields and the unique order number. */
module OrderModel {
  import opened Basics
  import opened Calendar
  import opened Seqs

  /** The five values the schema's `status` enum admits. */
  datatype Status = Pending | Processing | Shipped | Delivered | Cancelled

  /** The enum in declaration order; the order-details page shows one button per
      entry, in this order. */
  const AllStatuses: seq<Status> := [Pending, Processing, Shipped, Delivered, Cancelled]

  /** The string stored for a status. */
  function StatusName(s: Status): string {
    match s
    case Pending => "pending"
    case Processing => "processing"
    case Shipped => "shipped"
    case Delivered => "delivered"
    case Cancelled => "cancelled"
  }

  /** Membership of a string in the enum: the status it names, if any. */
  function ParseStatus(name: string): (r: Option<Status>)
    ensures r.Some? ==> StatusName(r.value) == name
    ensures r.None? <==> forall s: Status :: StatusName(s) != name
  {
    if name == "pending" then Some(Pending)
    else if name == "processing" then Some(Processing)
    else if name == "shipped" then Some(Shipped)
    else if name == "delivered" then Some(Delivered)
    else if name == "cancelled" then Some(Cancelled)
    else None
  }

  /** Every status is named by exactly one string and that string parses back to it;
      the enum lists every status exactly once. */
  lemma StatusNamesRoundTrip(s: Status)
    ensures ParseStatus(StatusName(s)) == Some(s)
    ensures s in AllStatuses
    ensures |AllStatuses| == 5
    ensures forall i, j :: 0 <= i < j < |AllStatuses| ==> StatusName(AllStatuses[i]) != StatusName(AllStatuses[j])
  {
  }

  /** A line item: a reference to a product (absent or dangling once the product is
      gone), a snapshot of its name, the quantity and the unit price. */
  datatype OrderItem = OrderItem(productId: Option<Id>, productName: string, quantity: real, price: real)

  datatype Order = Order(
    id: Id,
    orderNumber: string,
    customerEmail: string,
    items: seq<OrderItem>,
    totalAmount: real,
    status: Status,
    createdAt: Timestamp)

  /** Sort key for `{ createdAt: -1 }`. */
  function OrderRecency(o: Order): real {
    Recency(o.createdAt)
  }

  function Amount(o: Order): real {
    o.totalAmount
  }

  /** The filter `{ "items.productId": productId }`: some item references the product. */
  predicate ReferencesProduct(o: Order, productId: Id) {
    exists k :: 0 <= k < |o.items| && o.items[k].productId == Some(productId)
  }

  function Referencing(productId: Id): Order -> bool {
    o => ReferencesProduct(o, productId)
  }

  function NotReferencing(productId: Id): Order -> bool {
    o => !ReferencesProduct(o, productId)
  }

  /** The unique index on `orderNumber`. */
  predicate UniqueOrderNumbers(store: seq<Order>) {
    forall i, j :: 0 <= i < j < |store| ==> store[i].orderNumber != store[j].orderNumber
  }

  /** `_id` is a primary key. */
  predicate UniqueIds(store: seq<Order>) {
    forall i, j :: 0 <= i < j < |store| ==> store[i].id != store[j].id
  }

  function OrderId(o: Order): Id {
    o.id
  }

  function OrderIds(store: seq<Order>): seq<Id> {
    Map(store, OrderId)
  }

  /** A well-formed order collection: both keys unique. */
  predicate ValidOrderStore(store: seq<Order>) {
    UniqueOrderNumbers(store) && UniqueIds(store)
  }

  /** Keeping a subsequence of a valid collection keeps it valid (used by every delete). */
  lemma {:induction false} FilterKeepsValid(store: seq<Order>, p: Order -> bool)
    requires ValidOrderStore(store)
    ensures ValidOrderStore(Filter(store, p))
    decreases |store|
  {
    if |store| > 0 {
      var prefix := store[..|store| - 1];
      var last := store[|store| - 1];
      assert ValidOrderStore(prefix);
      FilterKeepsValid(prefix, p);
      var f := Filter(prefix, p);
      forall k | 0 <= k < |f|
        ensures f[k].orderNumber != last.orderNumber && f[k].id != last.id
      {
        assert f[k] in prefix;
        var i :| 0 <= i < |prefix| && prefix[i] == f[k];
        assert store[i] == f[k];
      }
    }
  }

  /** What `Order.create` is given: every field may be missing. */
  datatype OrderDraft = OrderDraft(
    orderNumber: Option<string>,
    customerEmail: Option<string>,
    items: seq<OrderItem>,
    totalAmount: Option<real>,
    status: Option<string>)

  /** Why an insert fails: schema validation (naming the failing paths), or the
      unique index on `orderNumber`. */
  datatype OrderRejection = Invalid(paths: seq<string>) | DuplicateOrderNumber

  /** Mongoose's `required` on a String path: present and not the empty string. */
  predicate PresentText(v: Option<string>) {
    v.Some? && v.value != ""
  }

  /** The status an inserted order gets: the given one, or the default "pending". */
  function StatusOrDefault(v: Option<string>): Option<Status> {
    if v.None? then Some(Pending) else ParseStatus(v.value)
  }

  /** The paths whose validators fail, in schema order. */
  function FailingPaths(d: OrderDraft): (r: seq<string>)
    ensures r == [] <==>
      PresentText(d.orderNumber) && PresentText(d.customerEmail) && d.totalAmount.Some?
      && StatusOrDefault(d.status).Some?
  {
    (if PresentText(d.orderNumber) then [] else ["orderNumber"])
    + (if PresentText(d.customerEmail) then [] else ["customerEmail"])
    + (if d.totalAmount.Some? then [] else ["totalAmount"])
    + (if StatusOrDefault(d.status).Some? then [] else ["status"])
  }

  predicate NumberTaken(store: seq<Order>, orderNumber: string) {
    exists k :: 0 <= k < |store| && store[k].orderNumber == orderNumber
  }

  /** `Order.create(draft)`: validate against the schema, then insert under a fresh
      `_id` unless the order number is already taken. */
  function InsertOrder(store: seq<Order>, d: OrderDraft, createdAt: Timestamp): (r: Result<seq<Order>, OrderRejection>)
    ensures r.Ok? <==> FailingPaths(d) == [] && !NumberTaken(store, d.orderNumber.value)
    ensures r.Err? && FailingPaths(d) != [] ==> r.error == Invalid(FailingPaths(d))
    ensures r.Ok? ==>
      && |r.value| == |store| + 1
      && r.value[..|store|] == store
      && r.value[|store|].orderNumber == d.orderNumber.value
      && r.value[|store|].customerEmail == d.customerEmail.value
      && r.value[|store|].totalAmount == d.totalAmount.value
      && r.value[|store|].items == d.items
      && r.value[|store|].status == (if d.status.None? then Pending else ParseStatus(d.status.value).value)
    ensures r.Ok? && ValidOrderStore(store) ==> ValidOrderStore(r.value)
  {
    var paths := FailingPaths(d);
    if paths != [] then Err(Invalid(paths))
    else if NumberTaken(store, d.orderNumber.value) then Err(DuplicateOrderNumber)
    else
      var ids := OrderIds(store);
      var o := Order(FreshId(ids), d.orderNumber.value, d.customerEmail.value, d.items,
                     d.totalAmount.value, StatusOrDefault(d.status).value, createdAt);
      assert forall k :: 0 <= k < |store| ==> store[k].id == ids[k];
      assert (store + [o])[..|store|] == store;
      Ok(store + [o])
  }

  /** Nothing ties `totalAmount` to the line items: the schema accepts an order whose
      total differs from the sum of its subtotals. */
  lemma TotalNotTiedToItems()
    ensures var d := OrderDraft(Some("ORD-1"), Some("a@x.com"),
                                [OrderItem(None, "Mug", 2.0, 5.0)], Some(1.0), None);
      InsertOrder([], d, Timestamp(0, 1970, 0)).Ok?
  {
    var d := OrderDraft(Some("ORD-1"), Some("a@x.com"), [OrderItem(None, "Mug", 2.0, 5.0)], Some(1.0), None);
    assert FailingPaths(d) == [];
  }
}
