/**
 * The product list screen's rules: the search filter, the local list after a
 * delete, and the status badge labels. The confirmation dialog's answer is
 * supplied as `confirmed`.
 */
module ProductsPage {
  import opened Types
  import Seqs
  import Text
  import Store

  /** The lower-cased name, category or supplier contains the lower-cased query. */
  predicate Matches(p: Product, query: string) {
    var q := Text.Lower(query);
    || Text.Contains(Text.Lower(p.name), q)
    || Text.Contains(Text.Lower(p.category), q)
    || Text.Contains(Text.Lower(p.supplier), q)
  }

  /**
   * The search proper: the products whose lower-cased name, category or
   * supplier contains the lower-cased query, each as often as listed, in
   * list order.
   */
  function Search(products: seq<Product>, query: string): (r: seq<Product>)
    ensures forall p :: p in r <==> p in products && Matches(p, query)
    ensures forall p :: multiset(r)[p] == if Matches(p, query) then multiset(products)[p] else 0
    ensures Seqs.IsSubsequence(r, products)
    ensures |r| <= |products|
  {
    var keep := (p: Product) => Matches(p, query);
    var r := Seqs.Filter(products, keep);
    assert forall p :: p in r <==> p in products && Matches(p, query) by {
      Seqs.FilterMembership(products, keep);
    }
    assert forall p :: multiset(r)[p] == if Matches(p, query) then multiset(products)[p] else 0 by {
      Seqs.FilterCounts(products, keep);
    }
    assert Seqs.IsSubsequence(r, products) by {
      Seqs.FilterIsSubsequence(products, keep);
    }
    r
  }

  /**
   * `filterProducts`: a query that is blank after trimming shows every
   * product; otherwise the untrimmed query selects the matching products,
   * in list order.
   */
  function FilterProducts(products: seq<Product>, query: string): (r: seq<Product>)
    ensures Text.IsBlank(query) ==> r == products
    ensures !Text.IsBlank(query) ==> forall p :: p in r <==> p in products && Matches(p, query)
    ensures !Text.IsBlank(query) ==>
      forall p :: multiset(r)[p] == if Matches(p, query) then multiset(products)[p] else 0
    ensures Seqs.IsSubsequence(r, products)
    ensures |r| <= |products|
  {
    Text.TrimEmptyIffBlank(query);
    if Text.Trim(query) == [] then
      Seqs.SubsequenceReflexive(products);
      products
    else
      Search(products, query)
  }

  /** Searching the search results again with the same query changes nothing. */
  lemma FilterProductsIdempotent(products: seq<Product>, query: string)
    ensures FilterProducts(FilterProducts(products, query), query) == FilterProducts(products, query)
  {
    if !Text.IsBlank(query) {
      Seqs.FilterIdempotent(products, (p: Product) => Matches(p, query));
    }
  }

  /**
   * Trimming only decides whether the query is blank: a trailing space is
   * part of what is searched for, so "rice " misses a product that "rice"
   * finds.
   */
  lemma QueryIsNotTrimmed()
    ensures FilterProducts([RiceSample], "rice") == [RiceSample]
    ensures FilterProducts([RiceSample], "rice ") == []
  {
    RiceSampleMatches();
    RiceSampleMissesPadded();
    assert !Text.IsWhitespace("rice"[0]) && !Text.IsWhitespace("rice "[0]);
    Seqs.FilterSingle(RiceSample, (x: Product) => Matches(x, "rice"));
    Seqs.FilterSingle(RiceSample, (x: Product) => Matches(x, "rice "));
  }

  /** A small rice record in the shape of the seeded ones. */
  const RiceSample := Product("3", "Rice", "Grains", 500, 180.0, "kg", "KRBL", "", InStock)

  /** "rice" occurs in the sample's lower-cased name. */
  lemma RiceSampleMatches()
    ensures Matches(RiceSample, "rice")
  {
    assert Text.Lower("rice") == "rice";
    assert Text.Lower("Rice") == "rice";
    assert Text.Contains("rice", "rice");
  }

  /** "rice " occurs in none of the sample's searched fields: none of them holds a space. */
  lemma RiceSampleMissesPadded()
    ensures !Matches(RiceSample, "rice ")
  {
    assert Text.Lower("rice ") == "rice ";
    assert Text.Lower("Rice") == "rice";
    assert Text.Lower("Grains") == "grains";
    assert Text.Lower("KRBL") == "krbl";
    Text.MissingCharNotContained("rice", "rice ", 4);
    Text.MissingCharNotContained("grains", "rice ", 4);
    Text.MissingCharNotContained("krbl", "rice ", 4);
  }

  const DeleteFailedFallback := "Failed to delete product"

  /** The screen after `handleDelete`: the store, the local list, and any alert shown. */
  datatype DeleteOutcome = DeleteOutcome(store: seq<Product>, products: seq<Product>, alert: Option<string>)

  /** The local list with every entry carrying `id` removed, the rest kept in order. */
  function WithoutId(products: seq<Product>, id: string): (r: seq<Product>)
    ensures forall p :: p in r <==> p in products && p.id != id
    ensures forall p :: multiset(r)[p] == if p.id != id then multiset(products)[p] else 0
    ensures Seqs.IsSubsequence(r, products)
  {
    var keep := (p: Product) => p.id != id;
    Seqs.FilterMembership(products, keep);
    Seqs.FilterCounts(products, keep);
    Seqs.FilterIsSubsequence(products, keep);
    Seqs.Filter(products, keep)
  }

  /**
   * `handleDelete`: a declined confirmation does nothing; a failed delete
   * alerts and keeps the list; a successful one drops every local entry
   * carrying the id, keeping the rest in order.
   */
  function HandleDelete(store: seq<Product>, products: seq<Product>, id: string, confirmed: bool): (r: DeleteOutcome)
    ensures !confirmed ==> r == DeleteOutcome(store, products, None)
    ensures confirmed && !Store.HasId(store, id) ==>
      r == DeleteOutcome(store, products, Some(Store.NotFound))
    ensures confirmed && Store.HasId(store, id) ==>
      && r.alert.None?
      && (exists i :: Store.IsFirstIndex(store, id, i) && r.store == store[..i] + store[i + 1..])
      && (forall p :: p in r.products <==> p in products && p.id != id)
      && (forall p :: multiset(r.products)[p] == if p.id != id then multiset(products)[p] else 0)
      && Seqs.IsSubsequence(r.products, products)
  {
    if !confirmed then DeleteOutcome(store, products, None)
    else
      var d := Store.Delete(store, id);
      match d.result
      case Err(m) => DeleteOutcome(store, products, Some(if m != "" then m else DeleteFailedFallback))
      case Ok(_) => DeleteOutcome(d.store, WithoutId(products, id), None)
  }

  /**
   * When the local list is the store and ids are distinct, the list after a
   * successful delete is exactly the store the facade leaves behind.
   */
  lemma LocalListMatchesStore(store: seq<Product>, id: string)
    requires Store.UniqueIds(store) && Store.HasId(store, id)
    ensures var r := HandleDelete(store, store, id, true);
      r.products == r.store
  {
    var d := Store.Delete(store, id);
    var i :| Store.IsFirstIndex(store, id, i) && d.store == store[..i] + store[i + 1..];
    Seqs.FilterDropsOne(store, i, (p: Product) => p.id != id);
  }

  /**
   * Two deletes confirmed before either facade call returns, `first`
   * returning first, as written: each handler filters the list it captured
   * when it started, so the second one overwrites the first one's result
   * and the entries carrying `first` come back. A second handler whose call
   * fails only alerts, so the list stays as the first handler left it.
   */
  function StaleOverlappingDeletes(store: seq<Product>, products: seq<Product>, first: string, second: string)
    : (r: DeleteOutcome)
    ensures Store.HasId(store, first) && Store.HasId(Store.Delete(store, first).store, second) ==>
      && r.alert.None?
      && r.store == Store.Delete(Store.Delete(store, first).store, second).store
      && (forall p :: p in r.products <==> p in products && p.id != second)
      && forall p :: multiset(r.products)[p] == if p.id != second then multiset(products)[p] else 0
    ensures Store.HasId(store, first) && !Store.HasId(Store.Delete(store, first).store, second) ==>
      && r.alert == Some(Store.NotFound)
      && r.store == Store.Delete(store, first).store
      && forall p :: p in r.products <==> p in products && p.id != first
  {
    var d1 := HandleDelete(store, products, first, true);
    var d2 := HandleDelete(d1.store, products, second, true);
    if d2.alert.Some? then d2.(products := d1.products) else d2
  }

  /** The same two deletes when the second handler filters the list as it stands when its call returns. */
  function FreshOverlappingDeletes(store: seq<Product>, products: seq<Product>, first: string, second: string)
    : (r: DeleteOutcome)
    ensures Store.HasId(store, first) && Store.HasId(Store.Delete(store, first).store, second) ==>
      && r.alert.None?
      && r.store == Store.Delete(Store.Delete(store, first).store, second).store
      && forall p :: p in r.products <==> p in products && p.id != first && p.id != second
  {
    var d1 := HandleDelete(store, products, first, true);
    HandleDelete(d1.store, d1.products, second, true)
  }

  const SampleA := Product("1", "Tata Tea Premium", "Beverages", 150, 450.0, "kg", "Tata Consumer Products", "", InStock)
  const SampleB := Product("2", "Toor Dal", "Pulses", 0, 120.0, "kg", "Mother Dairy", "", OutOfStock)

  /** Deleting records 1 and then 2 with overlapping calls empties the store but shows record 1 again. */
  lemma OverlappingDeletesRestoreRecord()
    ensures StaleOverlappingDeletes([SampleA, SampleB], [SampleA, SampleB], "1", "2")
      == DeleteOutcome([], [SampleA], None)
  {
    var s := [SampleA, SampleB];
    var d1 := Store.Delete(s, "1");
    assert d1.store == [SampleB] by {
      assert Store.IsFirstIndex(s, "1", 0);
    }
    assert Store.Delete(d1.store, "2").store == [] by {
      assert Store.IsFirstIndex(d1.store, "2", 0);
    }
    assert WithoutId(s, "2") == [SampleA] by {
      var keep := (p: Product) => p.id != "2";
      Seqs.FilterSingle(SampleA, keep);
      Seqs.FilterSingle(SampleB, keep);
      Seqs.FilterConcat([SampleA], [SampleB], keep);
      assert s == [SampleA] + [SampleB];
    }
  }

  /**
   * With the list equal to the store and distinct ids, two overlapping
   * deletes of distinct present ids leave the list equal to the store when
   * the second handler filters the current list.
   */
  lemma FreshDeletesMatchStore(store: seq<Product>, first: string, second: string)
    requires Store.UniqueIds(store) && Store.HasId(store, first) && Store.HasId(store, second) && first != second
    ensures var r := FreshOverlappingDeletes(store, store, first, second);
      r.alert.None? && r.products == r.store
  {
    var d1 := HandleDelete(store, store, first, true);
    assert d1.products == d1.store by {
      LocalListMatchesStore(store, first);
    }
    assert Store.UniqueIds(d1.store) by {
      Store.DeletePreservesUniqueIds(store, first);
    }
    assert Store.HasId(d1.store, second) by {
      var k :| 0 <= k < |store| && store[k].id == second;
      assert store[k] in d1.store;
    }
    LocalListMatchesStore(d1.store, second);
  }

  /** The label `getStatusBadge` shows for each status. */
  function BadgeLabel(status: Status): (r: string)
    ensures r == "In Stock" <==> status == InStock
    ensures r == "Low Stock" <==> status == LowStock
    ensures r == "Out of Stock" <==> status == OutOfStock
  {
    match status
    case InStock => "In Stock"
    case LowStock => "Low Stock"
    case OutOfStock => "Out of Stock"
  }

  /** Distinct statuses show distinct badges. */
  lemma BadgeLabelsDistinct(a: Status, b: Status)
    ensures BadgeLabel(a) == BadgeLabel(b) <==> a == b
  {
  }
}
