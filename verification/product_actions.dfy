/** The product server actions (app/actions/product.ts): validated create and update,
    delete with its cascade into orders, lookup by id, and the paged search. */
module ProductActions {
  import opened Basics
  import opened Calendar
  import opened Text
  import opened Seqs
  import opened Paging
  import opened OrderModel
  import opened ProductModel
  import opened Validations

  /** `{ success: true }`, or `{ error }` — the validator's issues or a fixed message. */
  datatype Reply = Done | Rejected(issues: seq<Issue>) | Error(message: string)

  /** The draft the validated record hands to `Product.create`. */
  function DraftOf(v: ProductData): ProductDraft {
    ProductDraft(Some(v.name), Some(v.description), Some(v.price), Some(v.stock as real),
                 Some(v.category), v.images)
  }

  /** What the form validator accepts, the schema accepts too: the schema's
      `required` checks are implied by the form's minimum lengths. */
  lemma ValidatedFormPassesSchema(i: FormInput, id: Id, t: Timestamp)
    requires Valid(i)
    ensures CreateProduct(DraftOf(Validate(i).value), id, t).Ok?
  {
    var v := Validate(i).value;
    assert v.name != "" && v.description != "" && v.category != "";
  }

  datatype ProductWrite = ProductWrite(products: seq<Product>, reply: Reply)

  /** `addProduct`: validate, then insert under a fresh id. Invalid input stores
      nothing and reports the issues. */
  function AddProduct(products: seq<Product>, input: FormInput, createdAt: Timestamp): (r: ProductWrite)
    ensures !Valid(input) ==> r.products == products && r.reply.Rejected? && r.reply.issues != []
    ensures Valid(input) ==>
      && r.reply == Done
      && |r.products| == |products| + 1 && r.products[..|products|] == products
      && var p := r.products[|products|];
         && p.id !in ProductIds(products) && p.createdAt == createdAt
         && p.name == input.name.value && p.description == input.description.value
         && p.price == input.price && p.stock == input.stock && p.category == input.category.value
         && p.images == input.images.GetOr([])
    ensures UniqueProductIds(products) ==> UniqueProductIds(r.products)
  {
    match Validate(input)
    case Err(issues) => ProductWrite(products, Rejected(issues))
    case Ok(v) =>
      var id := FreshId(ProductIds(products));
      ValidatedFormPassesSchema(input, id, createdAt);
      match CreateProduct(DraftOf(v), id, createdAt)
      case Err(_) => ProductWrite(products, Error("Failed to add product"))
      case Ok(p) =>
        assert (products + [p])[..|products|] == products;
        ProductWrite(products + [p], Done)
  }

  /** `findByIdAndUpdate(id, validatedData)` on one document: the form's fields are
      overwritten; identity and creation time stay. */
  function Overwrite(p: Product, v: ProductData): Product {
    p.(name := v.name, description := v.description, price := v.price, stock := v.stock as real,
       category := v.category, images := if v.images.Some? then v.images.value else p.images)
  }

  /** `updateProduct`: validate, then overwrite the product with that id. An unknown id
      changes nothing and still reports success. */
  function UpdateProduct(products: seq<Product>, id: Id, input: FormInput): (r: ProductWrite)
    ensures |r.products| == |products|
    ensures !Valid(input) ==> r.products == products && r.reply.Rejected?
    ensures Valid(input) ==> r.reply == Done
    ensures forall k :: 0 <= k < |products| && products[k].id != id ==> r.products[k] == products[k]
    ensures forall k :: 0 <= k < |products| && products[k].id == id && Valid(input) ==>
      && r.products[k].id == id && r.products[k].createdAt == products[k].createdAt
      && r.products[k].name == input.name.value && r.products[k].price == input.price
      && r.products[k].description == input.description.value
      && r.products[k].stock == input.stock && r.products[k].category == input.category.value
      && r.products[k].images == (if input.images.Some? then input.images.value else products[k].images)
    ensures (forall k :: 0 <= k < |products| ==> products[k].id != id) ==> r.products == products
  {
    match Validate(input)
    case Err(issues) => ProductWrite(products, Rejected(issues))
    case Ok(v) =>
      var updated := seq(|products|, k requires 0 <= k < |products| =>
                         if products[k].id == id then Overwrite(products[k], v) else products[k]);
      ProductWrite(updated, Done)
  }

  datatype Deletion = Deletion(orders: seq<Order>, products: seq<Product>, reply: Reply)

  /** `deleteProduct`: first every order with an item referencing the product is
      deleted, then the product itself. */
  function DeleteProduct(orders: seq<Order>, products: seq<Product>, id: Id): (r: Deletion)
    ensures r.reply == Done
    ensures forall o :: o in r.orders <==> o in orders && !ReferencesProduct(o, id)
    ensures forall p :: p in r.products <==> p in products && p.id != id
    ensures |r.orders| == |orders| - |Filter(orders, Referencing(id))|
  {
    CascadeCount(orders, id);
    Deletion(Filter(orders, NotReferencing(id)),
             Filter(products, (p: Product) => p.id != id), Done)
  }

  /** Every order either references the product or does not: the cascade removes
      exactly the referencing ones. */
  lemma {:induction false} CascadeCount(orders: seq<Order>, id: Id)
    ensures |Filter(orders, NotReferencing(id))| + |Filter(orders, Referencing(id))| == |orders|
    decreases |orders|
  {
    if |orders| > 0 {
      CascadeCount(orders[..|orders| - 1], id);
    }
  }

  /** The cascade keeps the order collection well formed: order numbers and ids stay unique. */
  lemma DeleteKeepsOrdersValid(orders: seq<Order>, products: seq<Product>, id: Id)
    requires ValidOrderStore(orders)
    ensures ValidOrderStore(DeleteProduct(orders, products, id).orders)
  {
    FilterKeepsValid(orders, NotReferencing(id));
  }

  /** `Product.findById`: the product with that id, or "Product not found". */
  function LookupProduct(products: seq<Product>, id: Id): (r: Result<Product, string>)
    ensures r.Ok? ==> r.value in products && r.value.id == id
    ensures r.Err? <==> forall k :: 0 <= k < |products| ==> products[k].id != id
    ensures r.Err? ==> r.error == "Product not found"
    decreases |products|
  {
    if |products| == 0 then Err("Product not found")
    else if products[0].id == id then Ok(products[0])
    else
      var rest := LookupProduct(products[1..], id);
      assert forall k :: 1 <= k < |products| ==> products[k] == products[1..][k - 1];
      rest
  }

  /** `getProduct`: the product with that id, "Product not found" when there is none,
      "Failed to fetch product" when the database cannot be read. */
  function GetProduct(db: Fetch<seq<Product>>, id: Id): (r: Result<Product, string>)
    ensures db.Unavailable? ==> r == Err("Failed to fetch product")
    ensures db.Fetched? ==>
      && (r.Ok? ==> r.value in db.value && r.value.id == id)
      && (r.Err? <==> forall k :: 0 <= k < |db.value| ==> db.value[k].id != id)
      && (r.Err? ==> r.error == "Product not found")
  {
    match db
    case Unavailable => Err("Failed to fetch product")
    case Fetched(products) => LookupProduct(products, id)
  }

  /** The product filter: no filter for the empty term; otherwise the term, as is
      (not trimmed), occurs case-insensitively in the name, category or description. */
  predicate MatchesSearch(p: Product, search: string) {
    search == []
    || IncludesIgnoringCase(p.name, search)
    || IncludesIgnoringCase(p.category, search)
    || IncludesIgnoringCase(p.description, search)
  }

  function Matching(search: string): Product -> bool {
    p => MatchesSearch(p, search)
  }

  /** The products a search selects, newest first: the order in which they are paged. */
  function ProductResults(products: seq<Product>, search: string): (r: seq<Product>)
    ensures SortedDesc(r, ProductRecency)
    ensures |r| == |Filter(products, Matching(search))|
    ensures forall p :: p in r <==> p in products && MatchesSearch(p, search)
  {
    var matches := Filter(products, Matching(search));
    var sorted := SortDesc(matches, ProductRecency);
    PermutationMembers(sorted, matches);
    sorted
  }

  /** `getProducts`: filter, sort newest first, then the requested page. A page below
      1 asks the database for a negative skip, which it refuses, so the action answers
      with its failure envelope. */
  function GetProducts(db: Fetch<seq<Product>>, page: int, limit: int, search: string): (r: Listing<Product>)
    requires limit >= 1
    ensures db.Unavailable? || page < 1 ==> r == Failed("Failed to fetch products")
    ensures db.Fetched? && page >= 1 ==>
      && r.success
      && IsPage(r.items, ProductResults(db.value, search), page, limit)
      && |r.items| <= limit
      && SortedDesc(r.items, ProductRecency)
      && (forall p :: p in r.items ==> p in db.value && MatchesSearch(p, search))
      && r.pagination.currentPage == page
      && r.pagination.total == |Filter(db.value, Matching(search))|
      && r.pagination.totalPages == CeilDiv(r.pagination.total, limit)
      && (r.pagination.hasMore <==> page < r.pagination.totalPages)
  {
    match db
    case Unavailable => Failed("Failed to fetch products")
    case Fetched(products) =>
      if page < 1 then Failed("Failed to fetch products")
      else
        var sorted := ProductResults(products, search);
        HasMoreIffLaterPage(sorted, page, limit);
        var r := PageOf(sorted, page, limit);
        r
  }

  /** Paging through the search loses and repeats nothing: the `k`-th product of the
      sorted matches is item `k % limit` of page `k / limit + 1`. */
  lemma ProductPagesLocate(products: seq<Product>, search: string, limit: int, k: nat)
    requires limit >= 1 && k < |ProductResults(products, search)|
    ensures var page := PageHolding(k, limit);
      var r := GetProducts(Fetched(products), page, limit, search);
      k - Skip(page, limit) < |r.items| && r.items[k - Skip(page, limit)] == ProductResults(products, search)[k]
  {
    PageLocates(ProductResults(products, search), limit, k);
  }
}
