/**
 * The mock product store and the products facade over it. The store is an
 * insertion-ordered sequence; every facade call returns the store it leaves
 * behind together with its result, so a failed call can be seen to leave the
 * store as it was. Ids and timestamps are supplied by the caller.
 */
module Store {
  import opened Types
  import Seqs

  const NotFound := "Product not found"

  /** The store after a facade call, and what the call returned or threw. */
  datatype Call<T> = Call(store: seq<Product>, result: Result<T>)

  predicate HasId(s: seq<Product>, id: string) {
    exists i :: 0 <= i < |s| && s[i].id == id
  }

  /** `i` is the first index of `s` whose record has id `id`. */
  predicate IsFirstIndex(s: seq<Product>, id: string, i: int) {
    0 <= i < |s| && s[i].id == id && forall j :: 0 <= j < i ==> s[j].id != id
  }

  /** No two records share an id. The facade does not enforce this. */
  predicate UniqueIds(s: seq<Product>) {
    forall i, j :: 0 <= i < j < |s| ==> s[i].id != s[j].id
  }

  lemma FirstIndexUnique(s: seq<Product>, id: string, i: int, k: int)
    requires IsFirstIndex(s, id, i) && IsFirstIndex(s, id, k)
    ensures i == k
  {
  }

  /** The first index whose record carries `id`, or -1 when none does. */
  function IndexOf(s: seq<Product>, id: string): (r: int)
    ensures r == -1 <==> !HasId(s, id)
    ensures r != -1 ==> IsFirstIndex(s, id, r)
  {
    Seqs.FindIndex(s, (p: Product) => p.id == id)
  }

  /** `getAll`: a copy of the whole store, in insertion order. */
  function GetAll(s: seq<Product>): (r: Call<seq<Product>>)
    ensures r.store == s
    ensures r.result.Ok? && r.result.value == s
  {
    Call(s, Ok(s))
  }

  /** `getById`: the first record carrying `id`, or "Product not found". */
  function GetById(s: seq<Product>, id: string): (r: Call<Product>)
    ensures r.store == s
    ensures r.result.Ok? <==> HasId(s, id)
    ensures r.result.Err? ==> r.result.message == NotFound
    ensures r.result.Ok? ==> exists i :: IsFirstIndex(s, id, i) && r.result.value == s[i]
  {
    var i := IndexOf(s, id);
    if i == -1 then Call(s, Err(NotFound)) else Call(s, Ok(s[i]))
  }

  /** The record `create` builds from a payload, a fresh id and a timestamp. */
  function FromInput(input: ProductInput, id: string, now: string): Product {
    Product(id, input.name, input.category, input.quantity, input.price,
            input.unit, input.supplier, now, input.status)
  }

  /** `create`: appends one record carrying the payload, `newId` and `now`. */
  function Create(s: seq<Product>, input: ProductInput, newId: string, now: string): (r: Call<Product>)
    ensures r.result.Ok?
    ensures |r.store| == |s| + 1 && r.store[..|s|] == s && r.store[|s|] == r.result.value
    ensures var p := r.result.value;
      && p.id == newId && p.lastUpdated == now
      && p.name == input.name && p.category == input.category
      && p.quantity == input.quantity && p.price == input.price
      && p.unit == input.unit && p.supplier == input.supplier
      && p.status == input.status
  {
    var p := FromInput(input, newId, now);
    Call(s + [p], Ok(p))
  }

  /** The record `update` stores: the patch's fields over the previous record's, then the new timestamp. */
  function Merge(prev: Product, patch: ProductPatch, now: string): (r: Product)
    ensures Patched(prev, patch, now, r)
  {
    Product(
      patch.id.GetOr(prev.id),
      patch.name.GetOr(prev.name),
      patch.category.GetOr(prev.category),
      patch.quantity.GetOr(prev.quantity),
      patch.price.GetOr(prev.price),
      patch.unit.GetOr(prev.unit),
      patch.supplier.GetOr(prev.supplier),
      now,
      patch.status.GetOr(prev.status))
  }

  /**
   * `updated` is `prev` with the fields present in `patch` overwritten, every
   * other field kept, and `lastUpdated` set to `now` whatever the patch says.
   * In particular `status` is taken from the patch or kept, never derived.
   */
  ghost predicate Patched(prev: Product, patch: ProductPatch, now: string, updated: Product) {
    && (patch.id.Some? ==> updated.id == patch.id.value) && (patch.id.None? ==> updated.id == prev.id)
    && (patch.name.Some? ==> updated.name == patch.name.value) && (patch.name.None? ==> updated.name == prev.name)
    && (patch.category.Some? ==> updated.category == patch.category.value)
    && (patch.category.None? ==> updated.category == prev.category)
    && (patch.quantity.Some? ==> updated.quantity == patch.quantity.value)
    && (patch.quantity.None? ==> updated.quantity == prev.quantity)
    && (patch.price.Some? ==> updated.price == patch.price.value) && (patch.price.None? ==> updated.price == prev.price)
    && (patch.unit.Some? ==> updated.unit == patch.unit.value) && (patch.unit.None? ==> updated.unit == prev.unit)
    && (patch.supplier.Some? ==> updated.supplier == patch.supplier.value)
    && (patch.supplier.None? ==> updated.supplier == prev.supplier)
    && (patch.status.Some? ==> updated.status == patch.status.value)
    && (patch.status.None? ==> updated.status == prev.status)
    && updated.lastUpdated == now
  }

  /** `update`: merges `patch` into the first record carrying `id`. */
  function Update(s: seq<Product>, id: string, patch: ProductPatch, now: string): (r: Call<Product>)
    ensures !HasId(s, id) ==> r.store == s && r.result == Err(NotFound)
    ensures HasId(s, id) ==> r.result.Ok? && |r.store| == |s|
    ensures r.result.Ok? ==> exists i :: (
      && IsFirstIndex(s, id, i)
      && Patched(s[i], patch, now, r.store[i])
      && r.result.value == r.store[i]
      && forall j :: 0 <= j < |s| && j != i ==> r.store[j] == s[j])
  {
    var i := IndexOf(s, id);
    if i == -1 then Call(s, Err(NotFound))
    else
      var p := Merge(s[i], patch, now);
      Call(s[i := p], Ok(p))
  }

  /** `delete`: splices out the first record carrying `id`. */
  function Delete(s: seq<Product>, id: string): (r: Call<()>)
    ensures !HasId(s, id) ==> r.store == s && r.result == Err(NotFound)
    ensures HasId(s, id) ==> r.result.Ok? && |r.store| == |s| - 1
    ensures r.result.Ok? ==> exists i :: IsFirstIndex(s, id, i) && r.store == s[..i] + s[i + 1..]
  {
    var i := IndexOf(s, id);
    if i == -1 then Call(s, Err(NotFound)) else Call(s[..i] + s[i + 1..], Ok(()))
  }

  /**
   * The eight records the mock starts with, all stamped `loadedAt`: each has
   * a positive price and a quantity of at least zero.
   */
  function MockProducts(loadedAt: string): (r: seq<Product>)
    ensures |r| == 8
    ensures forall i :: 0 <= i < |r| ==> r[i].lastUpdated == loadedAt && r[i].quantity >= 0 && r[i].price > 0.0
  {
    [
      Product("1", "Tata Tea Premium", "Beverages", 150, 450.0, "kg",
              "Tata Consumer Products", loadedAt, InStock),
      Product("2", "Aashirvaad Atta (Whole Wheat Flour)", "Grains", 8, 350.0, "kg",
              "ITC Limited", loadedAt, LowStock),
      Product("3", "India Gate Basmati Rice", "Grains", 500, 180.0, "kg",
              "KRBL Limited", loadedAt, InStock),
      Product("4", "Toor Dal (Arhar Dal)", "Pulses", 0, 120.0, "kg",
              "Mother Dairy", loadedAt, OutOfStock),
      Product("5", "Fortune Sunflower Oil", "Oils", 75, 180.0, "liter",
              "Adani Wilmar", loadedAt, InStock),
      Product("6", "Everest Garam Masala", "Spices", 12, 85.0, "kg",
              "Everest Food Products", loadedAt, LowStock),
      Product("7", "Amul Milk Powder", "Dairy", 35, 420.0, "kg",
              "Gujarat Cooperative Milk Marketing Federation", loadedAt, InStock),
      Product("8", "MDH Chana Masala", "Spices", 45, 95.0, "kg",
              "MDH Spices", loadedAt, InStock)
    ]
  }

  /** The seeded ids are pairwise distinct. */
  lemma MockProductsUniqueIds(loadedAt: string)
    ensures UniqueIds(MockProducts(loadedAt))
  {
  }

  /** A record created under an id no record has is what `getById` then finds. */
  lemma CreateThenGetById(s: seq<Product>, input: ProductInput, newId: string, now: string)
    requires !HasId(s, newId)
    ensures var c := Create(s, input, newId, now);
      GetById(c.store, newId).result == c.result
  {
    var c := Create(s, input, newId, now);
    assert IsFirstIndex(c.store, newId, |s|);
  }

  /** `getById` after a successful `update` whose patch has no id or the same id sees the merged record. */
  lemma UpdateThenGetById(s: seq<Product>, id: string, patch: ProductPatch, now: string)
    requires HasId(s, id) && (patch.id.None? || patch.id == Some(id))
    ensures var u := Update(s, id, patch, now);
      GetById(u.store, id).result == u.result
  {
    var u := Update(s, id, patch, now);
    var i :| IsFirstIndex(s, id, i) && Patched(s[i], patch, now, u.store[i])
      && u.result.value == u.store[i]
      && forall j :: 0 <= j < |s| && j != i ==> u.store[j] == s[j];
    assert IsFirstIndex(u.store, id, i);
    var k :| IsFirstIndex(u.store, id, k) && GetById(u.store, id).result.value == u.store[k];
    FirstIndexUnique(u.store, id, i, k);
  }

  /** With distinct ids, `getById` after a successful `delete` reports not found. */
  lemma DeleteThenGetById(s: seq<Product>, id: string)
    requires UniqueIds(s) && HasId(s, id)
    ensures GetById(Delete(s, id).store, id).result == Err(NotFound)
  {
    var d := Delete(s, id);
    var i :| IsFirstIndex(s, id, i) && d.store == s[..i] + s[i + 1..];
    forall j | 0 <= j < |d.store|
      ensures d.store[j].id != id
    {
      if j < i {
        assert d.store[j] == s[j];
      } else {
        assert d.store[j] == s[j + 1];
      }
    }
  }

  /** Creating under a fresh id keeps ids distinct. */
  lemma CreatePreservesUniqueIds(s: seq<Product>, input: ProductInput, newId: string, now: string)
    requires UniqueIds(s) && !HasId(s, newId)
    ensures UniqueIds(Create(s, input, newId, now).store)
  {
    var t := Create(s, input, newId, now).store;
    forall i, j | 0 <= i < j < |t|
      ensures t[i].id != t[j].id
    {
      if j == |s| {
        assert t[i] == s[i];
      } else {
        assert t[i] == s[i] && t[j] == s[j];
      }
    }
  }

  /** Splicing one record out keeps ids distinct. */
  lemma SpliceKeepsUniqueIds(s: seq<Product>, i: int)
    requires UniqueIds(s) && 0 <= i < |s|
    ensures UniqueIds(s[..i] + s[i + 1..])
  {
    var t := s[..i] + s[i + 1..];
    forall a | 0 <= a < |t|
      ensures t[a] == s[if a < i then a else a + 1]
    {
    }
  }

  /** Deleting keeps ids distinct. */
  lemma DeletePreservesUniqueIds(s: seq<Product>, id: string)
    requires UniqueIds(s)
    ensures UniqueIds(Delete(s, id).store)
  {
    if HasId(s, id) {
      var d := Delete(s, id);
      var i :| IsFirstIndex(s, id, i) && d.store == s[..i] + s[i + 1..];
      SpliceKeepsUniqueIds(s, i);
    }
  }

  /**
   * The facade never re-derives `status`: a patch that changes only the
   * quantity leaves the stored status as it was, even when it no longer
   * describes the new quantity.
   */
  lemma UpdateKeepsStaleStatus(loadedAt: string, now: string)
    ensures var u := Update(MockProducts(loadedAt), "1", EmptyPatch.(quantity := Some(0)), now);
      u.result.Ok? && u.result.value.quantity == 0 && u.result.value.status == InStock
  {
    var s := MockProducts(loadedAt);
    assert IsFirstIndex(s, "1", 0);
  }
}
