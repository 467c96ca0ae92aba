/** The `Product` document (models/Product.ts): required fields, the defaults for
    `stock` and `images`, and the absence of any range check on numbers. */
module ProductModel {
  import opened Basics
  import opened Calendar
  import opened Seqs

  datatype Product = Product(
    id: Id,
    name: string,
    description: string,
    price: real,
    stock: real,
    category: string,
    images: seq<string>,
    createdAt: Timestamp)

  /** Sort key for `{ createdAt: -1 }`. */
  function ProductRecency(p: Product): real {
    Recency(p.createdAt)
  }

  /** What `Product.create` is given: every field may be missing. */
  datatype ProductDraft = ProductDraft(
    name: Option<string>,
    description: Option<string>,
    price: Option<real>,
    stock: Option<real>,
    category: Option<string>,
    images: Option<seq<string>>)

  /** Mongoose's `required` on a String path: present and not the empty string. */
  predicate PresentText(v: Option<string>) {
    v.Some? && v.value != ""
  }

  /** The schema's own messages for the required validators that fail, in schema order.
      `stock` has a default, so its `required` validator never fails. */
  function SchemaErrors(d: ProductDraft): (r: seq<string>)
    ensures r == [] <==> PresentText(d.name) && PresentText(d.description) && d.price.Some? && PresentText(d.category)
  {
    (if PresentText(d.name) then [] else ["Please provide a product name"])
    + (if PresentText(d.description) then [] else ["Please provide a description"])
    + (if d.price.Some? then [] else ["Please provide a price"])
    + (if PresentText(d.category) then [] else ["Please select a category"])
  }

  /** `new Product(draft)` followed by validation: fills in the defaults
      (`stock` 0, `images` []) and fails with the messages of every missing field.
      No range is imposed: any price and any stock pass. */
  function CreateProduct(d: ProductDraft, id: Id, createdAt: Timestamp): (r: Result<Product, seq<string>>)
    ensures r.Err? <==> SchemaErrors(d) != []
    ensures r.Err? ==> r.error == SchemaErrors(d)
    ensures r.Ok? ==>
      && r.value.id == id && r.value.createdAt == createdAt
      && r.value.name == d.name.value && r.value.description == d.description.value
      && r.value.price == d.price.value && r.value.category == d.category.value
      && r.value.stock == d.stock.GetOr(0.0)
      && r.value.images == d.images.GetOr([])
  {
    var errors := SchemaErrors(d);
    if errors != [] then Err(errors)
    else Ok(Product(id, d.name.value, d.description.value, d.price.value,
                    d.stock.GetOr(0.0), d.category.value, d.images.GetOr([]), createdAt))
  }

  /** The defaults: a draft without stock or images is stored with stock 0 and no
      images; negative stock and zero price are accepted by the schema itself. */
  lemma SchemaDefaultsAndNoRanges(id: Id, t: Timestamp)
    ensures var r := CreateProduct(ProductDraft(Some("Mug"), Some("A mug"), Some(-1.0), None, Some("Home"), None), id, t);
      r.Ok? && r.value.stock == 0.0 && r.value.images == [] && r.value.price == -1.0
    ensures CreateProduct(ProductDraft(Some("Mug"), Some("A mug"), Some(0.0), Some(-3.0), Some("Home"), Some([])), id, t).Ok?
  {
  }

  function ProductId(p: Product): Id {
    p.id
  }

  function ProductIds(store: seq<Product>): seq<Id> {
    Map(store, ProductId)
  }

  /** `_id` is a primary key. */
  predicate UniqueProductIds(store: seq<Product>) {
    forall i, j :: 0 <= i < j < |store| ==> store[i].id != store[j].id
  }
}
