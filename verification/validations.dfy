/** The product form validator (`productSchema` in lib/validations.ts). */
module Validations {
  import opened Basics

  /** The raw form: text fields may be missing (`formData.get` returns null);
      price and stock are the numbers the coercion produced. */
  datatype FormInput = FormInput(
    name: Option<string>,
    description: Option<string>,
    price: real,
    stock: real,
    category: Option<string>,
    images: Option<seq<string>>)

  datatype Field = Name | Description | Price | Stock | Category

  /** One validation failure: the field and the validator's message. */
  datatype Issue = Issue(field: Field, message: string)

  /** The parsed value `productSchema.parse` returns. */
  datatype ProductData = ProductData(
    name: string,
    description: string,
    price: real,
    stock: int,
    category: string,
    images: Option<seq<string>>)

  const MinPrice: real := 0.01

  predicate NameOk(i: FormInput) { i.name.Some? && |i.name.value| >= 1 }
  predicate DescriptionOk(i: FormInput) { i.description.Some? && |i.description.value| >= 5 }
  predicate PriceOk(i: FormInput) { i.price >= MinPrice }
  predicate StockIsInteger(i: FormInput) { i.stock == i.stock.Floor as real }
  predicate StockOk(i: FormInput) { StockIsInteger(i) && i.stock >= 0.0 }
  predicate CategoryOk(i: FormInput) { i.category.Some? && |i.category.value| >= 1 }

  predicate FieldOk(i: FormInput, f: Field) {
    match f
    case Name => NameOk(i)
    case Description => DescriptionOk(i)
    case Price => PriceOk(i)
    case Stock => StockOk(i)
    case Category => CategoryOk(i)
  }

  /** The whole record is valid: every field rule holds at once. */
  predicate Valid(i: FormInput) {
    NameOk(i) && DescriptionOk(i) && PriceOk(i) && StockOk(i) && CategoryOk(i)
  }

  /** `z.string().min(n, message)` on a possibly missing value. */
  function TextIssues(f: Field, v: Option<string>, min: nat, message: string): (r: seq<Issue>)
    ensures |r| <= 1 && forall k :: 0 <= k < |r| ==> r[k].field == f
    ensures r == [] <==> v.Some? && |v.value| >= min
  {
    if v.None? then [Issue(f, "Expected string, received null")]
    else if |v.value| < min then [Issue(f, message)]
    else []
  }

  /** `z.coerce.number().int().min(0, …)`: both checks run, so a negative fraction
      reports two issues. */
  function StockIssues(i: FormInput): (r: seq<Issue>)
    ensures forall k :: 0 <= k < |r| ==> r[k].field == Stock
    ensures r == [] <==> StockOk(i)
  {
    (if StockIsInteger(i) then [] else [Issue(Stock, "Expected integer, received float")])
    + (if i.stock >= 0.0 then [] else [Issue(Stock, "Stock cannot be negative")])
  }

  /** Every issue of the record, in the schema's field order. */
  function Issues(i: FormInput): seq<Issue> {
    TextIssues(Name, i.name, 1, "Name is required")
    + TextIssues(Description, i.description, 5, "Description is too short")
    + (if PriceOk(i) then [] else [Issue(Price, "Price must be greater than 0")])
    + StockIssues(i)
    + TextIssues(Category, i.category, 1, "Category is required")
  }

  /** Issues name exactly the failing fields: every issue is about a field whose rule
      fails, and every failing field has an issue. */
  lemma IssuesNameFailingFields(i: FormInput)
    ensures forall k :: 0 <= k < |Issues(i)| ==> !FieldOk(i, Issues(i)[k].field)
    ensures forall f :: !FieldOk(i, f) ==> exists k :: 0 <= k < |Issues(i)| && Issues(i)[k].field == f
  {
    forall f | !FieldOk(i, f)
      ensures exists k :: 0 <= k < |Issues(i)| && Issues(i)[k].field == f
    {
      FailingFieldHasIssue(i, f);
    }
  }

  /** A failing field is named by an issue, at its place in schema order. */
  lemma FailingFieldHasIssue(i: FormInput, f: Field)
    requires !FieldOk(i, f)
    ensures exists k :: 0 <= k < |Issues(i)| && Issues(i)[k].field == f
  {
    var a := TextIssues(Name, i.name, 1, "Name is required");
    var b := TextIssues(Description, i.description, 5, "Description is too short");
    var c := if PriceOk(i) then [] else [Issue(Price, "Price must be greater than 0")];
    var d := StockIssues(i);
    var e := TextIssues(Category, i.category, 1, "Category is required");
    assert Issues(i) == a + b + c + d + e;
    match f
    case Name => assert Issues(i)[0].field == Name;
    case Description => assert Issues(i)[|a|].field == Description;
    case Price => assert Issues(i)[|a| + |b|].field == Price;
    case Stock => assert Issues(i)[|a| + |b| + |c|].field == Stock;
    case Category => assert Issues(i)[|a| + |b| + |c| + |d|].field == Category;
  }

  /** `productSchema.safeParse`: the parsed record when every rule holds, otherwise
      the (non-empty) list of issues. */
  function Validate(i: FormInput): (r: Result<ProductData, seq<Issue>>)
    ensures r.Ok? <==> Valid(i)
    ensures r.Err? ==> r.error != []
    ensures r.Ok? ==>
      && r.value.name == i.name.value && |r.value.name| >= 1
      && r.value.description == i.description.value && |r.value.description| >= 5
      && r.value.price == i.price && r.value.price >= MinPrice
      && r.value.stock as real == i.stock && r.value.stock >= 0
      && r.value.category == i.category.value && |r.value.category| >= 1
      && r.value.images == i.images
  {
    var issues := Issues(i);
    if issues != [] then
      IssuesNameFailingFields(i);
      Err(issues)
    else
      IssuesNameFailingFields(i);
      assert FieldOk(i, Name) && FieldOk(i, Description) && FieldOk(i, Price)
        && FieldOk(i, Stock) && FieldOk(i, Category);
      Ok(ProductData(i.name.value, i.description.value, i.price, i.stock.Floor,
                     i.category.value, i.images))
  }
}
