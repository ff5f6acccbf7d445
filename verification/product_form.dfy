/**
 * The product form screen's rules: the quantity-to-status classifier, the
 * ordered validation chain, the payload sent on submit, the field copy made
 * when an existing product is loaded, and the status hint under the form.
 * The route's `id` parameter is `routeId`, with "" for the create route.
 */
module ProductForm {
  import opened Types
  import Text
  import Store
  import ProductsPage

  /** The six editable fields. */
  datatype FormData = FormData(
    name: string,
    category: string,
    quantity: int,
    price: real,
    unit: string,
    supplier: string)

  const InitialForm := FormData("", "", 0, 0.0, "kg", "")

  const LowStockThreshold := 20

  /** `calculateStatus`: zero is out of stock, anything else below 20 is low. */
  function CalculateStatus(quantity: int): (r: Status)
    ensures r == OutOfStock <==> quantity == 0
    ensures r == LowStock <==> quantity != 0 && quantity < LowStockThreshold
    ensures r == InStock <==> quantity >= LowStockThreshold
  {
    if quantity == 0 then OutOfStock
    else if quantity < LowStockThreshold then LowStock
    else InStock
  }

  /** The classifier at the three boundaries. */
  lemma CalculateStatusBoundaries()
    ensures CalculateStatus(0) == OutOfStock
    ensures CalculateStatus(1) == LowStock && CalculateStatus(19) == LowStock
    ensures CalculateStatus(20) == InStock
    ensures CalculateStatus(-1) == LowStock
  {
  }

  const NameRequired := "Product name is required"
  const CategoryRequired := "Category is required"
  const PriceNotPositive := "Price must be greater than 0"
  const SupplierRequired := "Supplier is required"

  /** The form passes every check: name, category and supplier not blank, price positive. Quantity and unit are not checked. */
  predicate IsValid(f: FormData) {
    !Text.IsBlank(f.name) && !Text.IsBlank(f.category) && f.price > 0.0 && !Text.IsBlank(f.supplier)
  }

  /** The validation chain: the message of the first failing check, if any. */
  function Validate(f: FormData): (r: Option<string>)
    ensures r.None? <==> IsValid(f)
    ensures Text.IsBlank(f.name) ==> r == Some(NameRequired)
    ensures !Text.IsBlank(f.name) && Text.IsBlank(f.category) ==> r == Some(CategoryRequired)
    ensures !Text.IsBlank(f.name) && !Text.IsBlank(f.category) && f.price <= 0.0 ==> r == Some(PriceNotPositive)
    ensures !Text.IsBlank(f.name) && !Text.IsBlank(f.category) && f.price > 0.0 && Text.IsBlank(f.supplier)
      ==> r == Some(SupplierRequired)
  {
    Text.TrimEmptyIffBlank(f.name);
    Text.TrimEmptyIffBlank(f.category);
    Text.TrimEmptyIffBlank(f.supplier);
    if Text.Trim(f.name) == [] then Some(NameRequired)
    else if Text.Trim(f.category) == [] then Some(CategoryRequired)
    else if f.price <= 0.0 then Some(PriceNotPositive)
    else if Text.Trim(f.supplier) == [] then Some(SupplierRequired)
    else None
  }

  /** Changing quantity or unit never changes what validation reports. */
  lemma ValidateIgnoresQuantityAndUnit(f: FormData, quantity: int, unit: string)
    ensures Validate(f.(quantity := quantity, unit := unit)) == Validate(f)
  {
  }

  /** What the form sends: its six fields and the status its quantity derives. */
  function Payload(f: FormData): (r: ProductInput)
    ensures r.name == f.name && r.category == f.category && r.quantity == f.quantity
    ensures r.price == f.price && r.unit == f.unit && r.supplier == f.supplier
    ensures r.status == OutOfStock <==> f.quantity == 0
    ensures r.status == InStock <==> f.quantity >= LowStockThreshold
  {
    ProductInput(f.name, f.category, f.quantity, f.price, f.unit, f.supplier, CalculateStatus(f.quantity))
  }

  /** The payload as an update patch: the six fields and the status, nothing else. */
  function PayloadPatch(input: ProductInput): ProductPatch {
    ProductPatch(None, Some(input.name), Some(input.category), Some(input.quantity), Some(input.price),
                 Some(input.unit), Some(input.supplier), None, Some(input.status))
  }

  /** `p` carries the form's six fields and the status derived from its quantity. */
  ghost predicate SavedFrom(f: FormData, p: Product) {
    && p.name == f.name && p.category == f.category && p.quantity == f.quantity
    && p.price == f.price && p.unit == f.unit && p.supplier == f.supplier
    && p.status == CalculateStatus(f.quantity)
  }

  const ProductsRoute := "/products"
  const SaveFailedFallback := "Failed to save product"

  /** The screen after `handleSubmit`: the store, the error shown, whether the facade was called, where it went. */
  datatype SubmitOutcome = SubmitOutcome(
    store: seq<Product>,
    error: string,
    apiCalled: bool,
    navigatedTo: Option<string>)

  /** The create route's save: `create` with the payload, then back to the list. */
  function SubmitCreate(store: seq<Product>, f: FormData, newId: string, now: string): (r: SubmitOutcome)
    ensures r.apiCalled && r.error == "" && r.navigatedTo == Some(ProductsRoute)
    ensures |r.store| == |store| + 1 && r.store[..|store|] == store
    ensures SavedFrom(f, r.store[|store|]) && r.store[|store|].id == newId && r.store[|store|].lastUpdated == now
  {
    var c := Store.Create(store, Payload(f), newId, now);
    SubmitOutcome(c.store, "", true, Some(ProductsRoute))
  }

  /** The edit route's save: `update` of `routeId` with the payload; back to the list on success. */
  function SubmitEdit(store: seq<Product>, f: FormData, routeId: string, now: string): (r: SubmitOutcome)
    ensures r.apiCalled
    ensures !Store.HasId(store, routeId) ==> r == SubmitOutcome(store, Store.NotFound, true, None)
    ensures Store.HasId(store, routeId) ==>
      && r.error == "" && r.navigatedTo == Some(ProductsRoute) && |r.store| == |store|
      && exists i :: (
        && Store.IsFirstIndex(store, routeId, i)
        && SavedFrom(f, r.store[i]) && r.store[i].id == routeId && r.store[i].lastUpdated == now
        && forall j :: 0 <= j < |store| && j != i ==> r.store[j] == store[j])
  {
    var u := Store.Update(store, routeId, PayloadPatch(Payload(f)), now);
    match u.result
    case Ok(_) => SubmitOutcome(u.store, "", true, Some(ProductsRoute))
    case Err(m) => SubmitOutcome(u.store, if m != "" then m else SaveFailedFallback, true, None)
  }

  /**
   * `handleSubmit`: a failing check shows its message and calls nothing;
   * otherwise the payload goes to `update` on the edit route and to
   * `create` on the create route, and success returns to the list.
   */
  function Submit(store: seq<Product>, f: FormData, routeId: string, newId: string, now: string): (r: SubmitOutcome)
    ensures r.apiCalled <==> IsValid(f)
    ensures !IsValid(f) ==> r == SubmitOutcome(store, Validate(f).value, false, None)
    ensures IsValid(f) && routeId == "" ==> r == SubmitCreate(store, f, newId, now)
    ensures IsValid(f) && routeId != "" ==> r == SubmitEdit(store, f, routeId, now)
  {
    match Validate(f)
    case Some(message) => SubmitOutcome(store, message, false, None)
    case None =>
      if routeId != "" then SubmitEdit(store, f, routeId, now)
      else SubmitCreate(store, f, newId, now)
  }

  /** The form after `fetchProduct`, and the error it set, if any. */
  datatype LoadOutcome = LoadOutcome(form: FormData, error: Option<string>)

  /** `fetchProduct`: copies exactly the six editable fields of the record found. */
  function LoadForm(store: seq<Product>, productId: string, current: FormData): (r: LoadOutcome)
    ensures !Store.HasId(store, productId) ==> r == LoadOutcome(current, Some(Store.NotFound))
    ensures Store.HasId(store, productId) ==> r.error.None? && exists i :: (
      && Store.IsFirstIndex(store, productId, i)
      && r.form.name == store[i].name && r.form.category == store[i].category
      && r.form.quantity == store[i].quantity && r.form.price == store[i].price
      && r.form.unit == store[i].unit && r.form.supplier == store[i].supplier)
  {
    var g := Store.GetById(store, productId);
    match g.result
    case Ok(p) => LoadOutcome(FormData(p.name, p.category, p.quantity, p.price, p.unit, p.supplier), None)
    case Err(m) => LoadOutcome(current, Some(if m != "" then m else "Failed to load product"))
  }

  /**
   * Loading a product and saving it unchanged rewrites the same six values
   * and re-derives the status from the quantity, so a stale status is
   * repaired; the id and every other record are kept.
   */
  lemma ResubmitRepairsStatus(store: seq<Product>, i: int, newId: string, now: string)
    requires 0 <= i < |store| && store[i].id != "" && Store.IsFirstIndex(store, store[i].id, i)
    requires IsValid(FormData(store[i].name, store[i].category, store[i].quantity, store[i].price,
                              store[i].unit, store[i].supplier))
    ensures var id := store[i].id;
      var r := Submit(store, LoadForm(store, id, InitialForm).form, id, newId, now);
      && |r.store| == |store|
      && r.store[i] == store[i].(lastUpdated := now, status := CalculateStatus(store[i].quantity))
      && forall j :: 0 <= j < |store| && j != i ==> r.store[j] == store[j]
  {
    var id := store[i].id;
    var f := LoadForm(store, id, InitialForm).form;
    var r := Submit(store, f, id, newId, now);
    var i' :| Store.IsFirstIndex(store, id, i')
      && f.name == store[i'].name && f.category == store[i'].category
      && f.quantity == store[i'].quantity && f.price == store[i'].price
      && f.unit == store[i'].unit && f.supplier == store[i'].supplier;
    Store.FirstIndexUnique(store, id, i, i');
    var k :| Store.IsFirstIndex(store, id, k)
      && SavedFrom(f, r.store[k]) && r.store[k].id == id && r.store[k].lastUpdated == now
      && forall j :: 0 <= j < |store| && j != k ==> r.store[j] == store[j];
    Store.FirstIndexUnique(store, id, i, k);
  }

  /** The hint under the form: nothing is shown for a negative quantity. */
  function StatusLabel(quantity: int): (r: Option<string>)
    ensures r.None? <==> quantity < 0
  {
    if quantity == 0 then Some("Out of Stock")
    else if 0 < quantity < LowStockThreshold then Some("Low Stock")
    else if quantity >= LowStockThreshold then Some("In Stock")
    else None
  }

  /** For every non-negative quantity the hint is the badge of the derived status. */
  lemma StatusLabelAgreesWithBadge(quantity: int)
    ensures quantity >= 0 ==> StatusLabel(quantity) == Some(ProductsPage.BadgeLabel(CalculateStatus(quantity)))
    ensures quantity < 0 ==> StatusLabel(quantity) == None
  {
  }

  /** Every seeded record's stored status is the one its quantity derives. */
  lemma MockStatusesDerived(loadedAt: string)
    ensures var s := Store.MockProducts(loadedAt);
      forall i :: 0 <= i < |s| ==> s[i].status == CalculateStatus(s[i].quantity)
  {
  }
}
