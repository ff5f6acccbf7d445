/**
 * The dashboard facade's aggregate over the store, and the two pure rules
 * the dashboard screen applies to it: elapsed-time bucketing and the
 * inventory-health message. The clock reading is supplied in milliseconds.
 */
module Dashboard {
  import opened Types
  import Seqs
  import Store

  /** One entry of the recent-activity feed; `timestamp` is in epoch milliseconds. */
  datatype Activity = Activity(id: string, action: string, product: string, user: string, timestamp: int)

  datatype DashboardStats = DashboardStats(
    totalProducts: nat,
    totalValue: real,
    lowStockItems: nat,
    categories: nat,
    recentActivity: seq<Activity>)

  const MinuteMs := 1000 * 60
  const HourMs := 60 * MinuteMs
  const DayMs := 24 * HourMs

  /** The stock value of one record: price times quantity. */
  function Value(p: Product): real {
    p.price * (p.quantity as real)
  }

  /** Σ price×quantity over the records, in store order. */
  function TotalValue(s: seq<Product>): real {
    if |s| == 0 then 0.0 else Value(s[0]) + TotalValue(s[1..])
  }

  /** Stored status is low-stock or out-of-stock; quantity is not consulted. */
  predicate NeedsAttention(p: Product) {
    p.status == LowStock || p.status == OutOfStock
  }

  /** The distinct categories of the records. */
  function Categories(s: seq<Product>): set<string> {
    set i | 0 <= i < |s| :: s[i].category
  }

  /** Peeling off the first record: its category, then those of the rest. */
  lemma CategoriesCons(s: seq<Product>)
    requires |s| > 0
    ensures Categories(s) == {s[0].category} + Categories(s[1..])
  {
    forall c | c in Categories(s)
      ensures c in {s[0].category} + Categories(s[1..])
    {
      var i :| 0 <= i < |s| && s[i].category == c;
      if i > 0 {
        assert s[1..][i - 1] == s[i];
      }
    }
    forall c | c in Categories(s[1..])
      ensures c in Categories(s)
    {
      var i :| 0 <= i < |s[1..]| && s[1..][i].category == c;
      assert s[i + 1] == s[1..][i];
    }
  }

  /** There are never more distinct categories than records. */
  lemma {:induction false} CategoriesBound(s: seq<Product>)
    ensures |Categories(s)| <= |s|
    ensures |s| > 0 ==> |Categories(s)| > 0
  {
    if |s| > 0 {
      CategoriesCons(s);
      CategoriesBound(s[1..]);
      assert s[0].category in Categories(s);
    } else {
      assert Categories(s) == {};
    }
  }

  /** The fixed three-entry feed, stamped 15, 45 and 120 minutes before `nowMs`. */
  function RecentActivity(nowMs: int): (r: seq<Activity>)
    ensures |r| == 3
    ensures nowMs - r[0].timestamp == 15 * MinuteMs
    ensures nowMs - r[1].timestamp == 45 * MinuteMs
    ensures nowMs - r[2].timestamp == 2 * HourMs
    ensures r[0].timestamp > r[1].timestamp > r[2].timestamp
  {
    [
      Activity("1", "Updated", "Tata Tea Premium", "Rajesh Kumar", nowMs - 1000 * 60 * 15),
      Activity("2", "Added", "Amul Milk Powder", "Priya Sharma", nowMs - 1000 * 60 * 45),
      Activity("3", "Updated", "India Gate Basmati Rice", "Rajesh Kumar", nowMs - 1000 * 60 * 120)
    ]
  }

  /** The records `lowStockItems` counts, as the facade's `filter` selects them. */
  function AttentionItems(s: seq<Product>): seq<Product> {
    Seqs.Filter(s, NeedsAttention)
  }

  /** Nothing needs attention exactly when every stored status is in-stock. */
  lemma NoAttentionIffAllInStock(s: seq<Product>)
    ensures |AttentionItems(s)| == 0 <==> forall i :: 0 <= i < |s| ==> s[i].status == InStock
  {
    var low := AttentionItems(s);
    Seqs.FilterMembership(s, NeedsAttention);
    if |low| == 0 {
      forall i | 0 <= i < |s|
        ensures s[i].status == InStock
      {
        assert s[i] !in low;
      }
    } else {
      assert low[0] in s;
    }
  }

  /** `getStats`: recomputed in full over the store at call time. */
  function GetStats(s: seq<Product>, nowMs: int): (r: DashboardStats)
    ensures r.totalProducts == |s|
    ensures r.lowStockItems <= r.totalProducts && r.categories <= r.totalProducts
    ensures r.lowStockItems == 0 <==> forall i :: 0 <= i < |s| ==> s[i].status == InStock
    ensures r.categories == 0 <==> |s| == 0
    ensures r.totalValue == TotalValue(s)
    ensures r.lowStockItems == |AttentionItems(s)| && r.categories == |Categories(s)|
    ensures r.recentActivity == RecentActivity(nowMs)
  {
    CategoriesBound(s);
    NoAttentionIffAllInStock(s);
    DashboardStats(|s|, TotalValue(s), |AttentionItems(s)|, |Categories(s)|, RecentActivity(nowMs))
  }

  lemma {:induction false} TotalValueAppend(a: seq<Product>, b: seq<Product>)
    ensures TotalValue(a + b) == TotalValue(a) + TotalValue(b)
  {
    if |a| > 0 {
      assert (a + b)[1..] == a[1..] + b;
      TotalValueAppend(a[1..], b);
    } else {
      assert a + b == b;
    }
  }

  lemma CategoriesAppend(s: seq<Product>, p: Product)
    ensures Categories(s + [p]) == Categories(s) + {p.category}
  {
    var t := s + [p];
    forall c | c in Categories(s)
      ensures c in Categories(t)
    {
      var i :| 0 <= i < |s| && s[i].category == c;
      assert t[i] == s[i];
    }
    forall c | c in Categories(t)
      ensures c in Categories(s) + {p.category}
    {
      var i :| 0 <= i < |t| && t[i].category == c;
      if i < |s| {
        assert t[i] == s[i];
      }
    }
    assert t[|s|] == p;
  }

  /** Counting from index `k`: the record at `k`, then the rest. */
  lemma AttentionStep(s: seq<Product>, k: nat)
    requires k < |s|
    ensures |AttentionItems(s[k..])| == (if NeedsAttention(s[k]) then 1 else 0) + |AttentionItems(s[k + 1..])|
  {
    assert s[k..][0] == s[k];
    assert s[k..][1..] == s[k + 1..];
  }

  lemma AttentionAppend(s: seq<Product>, t: seq<Product>)
    ensures |AttentionItems(s + t)| == |AttentionItems(s)| + |AttentionItems(t)|
  {
    Seqs.FilterConcat(s, t, NeedsAttention);
  }

  lemma AttentionSingle(p: Product)
    ensures |AttentionItems([p])| == if NeedsAttention(p) then 1 else 0
  {
    AttentionStep([p], 0);
    assert [p][1..] == [];
  }

  lemma TotalValueSingle(p: Product)
    ensures TotalValue([p]) == Value(p)
  {
    assert [p][1..] == [];
  }

  /**
   * A `create` moves every figure by exactly the new record: one more
   * product, its value added, one more item needing attention when its
   * status says so, and at most one more category.
   */
  lemma StatsAfterCreate(s: seq<Product>, input: ProductInput, newId: string, now: string, nowMs: int)
    ensures var c := Store.Create(s, input, newId, now);
      var before := GetStats(s, nowMs);
      var after := GetStats(c.store, nowMs);
      && after.totalProducts == before.totalProducts + 1
      && after.totalValue == before.totalValue + Value(c.result.value)
      && after.lowStockItems == before.lowStockItems + (if NeedsAttention(c.result.value) then 1 else 0)
      && before.categories <= after.categories <= before.categories + 1
  {
    var c := Store.Create(s, input, newId, now);
    var p := c.result.value;
    assert c.store == s + [p];
    TotalValueAppend(s, [p]);
    TotalValueSingle(p);
    AttentionAppend(s, [p]);
    AttentionSingle(p);
    CategoriesAppend(s, p);
    var cs := Categories(s);
    if p.category in cs {
      assert cs + {p.category} == cs;
    } else {
      assert |cs + {p.category}| == |cs| + 1;
    }
  }

  lemma TotalValueRemove(s: seq<Product>, i: int)
    requires 0 <= i < |s|
    ensures TotalValue(s[..i] + s[i + 1..]) == TotalValue(s) - Value(s[i])
  {
    var pre, post := s[..i], s[i + 1..];
    assert s == (pre + [s[i]]) + post;
    TotalValueAppend(pre + [s[i]], post);
    TotalValueAppend(pre, [s[i]]);
    TotalValueAppend(pre, post);
    TotalValueSingle(s[i]);
  }

  lemma AttentionRemove(s: seq<Product>, i: int)
    requires 0 <= i < |s|
    ensures |AttentionItems(s[..i] + s[i + 1..])| + (if NeedsAttention(s[i]) then 1 else 0)
      == |AttentionItems(s)|
  {
    var pre, post := s[..i], s[i + 1..];
    assert s == (pre + [s[i]]) + post;
    AttentionAppend(pre + [s[i]], post);
    AttentionAppend(pre, [s[i]]);
    AttentionAppend(pre, post);
    AttentionSingle(s[i]);
  }

  /** A successful `delete` removes exactly the deleted record's value and count. */
  lemma StatsAfterDelete(s: seq<Product>, id: string, nowMs: int)
    requires Store.HasId(s, id)
    ensures var before := GetStats(s, nowMs);
      var after := GetStats(Store.Delete(s, id).store, nowMs);
      exists i :: (
        && Store.IsFirstIndex(s, id, i)
        && after.totalProducts == before.totalProducts - 1
        && after.totalValue == before.totalValue - Value(s[i])
        && after.lowStockItems + (if NeedsAttention(s[i]) then 1 else 0) == before.lowStockItems)
  {
    var d := Store.Delete(s, id);
    var i :| Store.IsFirstIndex(s, id, i) && d.store == s[..i] + s[i + 1..];
    TotalValueRemove(s, i);
    AttentionRemove(s, i);
  }

  lemma MockTotalValue(loadedAt: string)
    ensures TotalValue(Store.MockProducts(loadedAt)) == 193795.0
  {
    var s := Store.MockProducts(loadedAt);
    assert TotalValue(s[7..]) == 4275.0;
    assert TotalValue(s[6..]) == 18975.0;
    assert TotalValue(s[5..]) == 19995.0;
    assert TotalValue(s[4..]) == 33495.0;
    assert TotalValue(s[3..]) == 33495.0;
    assert TotalValue(s[2..]) == 123495.0;
    assert TotalValue(s[1..]) == 126295.0;
  }

  lemma MockAttentionItems(loadedAt: string)
    ensures |AttentionItems(Store.MockProducts(loadedAt))| == 3
  {
    var s := Store.MockProducts(loadedAt);
    assert s[8..] == [];
    AttentionStep(s, 7);
    AttentionStep(s, 6);
    AttentionStep(s, 5);
    AttentionStep(s, 4);
    AttentionStep(s, 3);
    AttentionStep(s, 2);
    AttentionStep(s, 1);
    AttentionStep(s, 0);
    assert s[0..] == s;
  }

  lemma MockCategories(loadedAt: string)
    ensures Categories(Store.MockProducts(loadedAt)) == {"Beverages", "Grains", "Pulses", "Oils", "Spices", "Dairy"}
    ensures |Categories(Store.MockProducts(loadedAt))| == 6
  {
    var s := Store.MockProducts(loadedAt);
    var a: set<string> := {"Beverages", "Grains", "Pulses", "Oils", "Spices", "Dairy"};
    forall i | 0 <= i < |s|
      ensures s[i].category in a
    {
    }
    assert s[0].category == "Beverages" && s[1].category == "Grains" && s[3].category == "Pulses";
    assert s[4].category == "Oils" && s[5].category == "Spices" && s[6].category == "Dairy";
    assert Categories(s) == a;
  }

  /** The figures the dashboard shows for the seeded store. */
  lemma MockStats(loadedAt: string, nowMs: int)
    ensures var r := GetStats(Store.MockProducts(loadedAt), nowMs);
      && r.totalProducts == 8
      && r.totalValue == 193795.0
      && r.lowStockItems == 3
      && r.categories == 6
  {
    var s := Store.MockProducts(loadedAt);
    MockTotalValue(loadedAt);
    MockAttentionItems(loadedAt);
    MockCategories(loadedAt);
    var r := GetStats(s, nowMs);
    assert r.totalProducts == 8;
    assert r.totalValue == 193795.0;
    assert r.lowStockItems == 3;
  }

  /** The label `formatTime` renders: minutes, hours, or the calendar date. */
  datatype TimeLabel = MinutesAgo(minutes: int) | HoursAgo(hours: int) | OnDate

  /**
   * `formatTime` on the elapsed milliseconds `diff`. Minutes and hours are
   * floors, so a timestamp in the future (negative `diff`) shows a negative
   * minute count.
   */
  function FormatTime(diff: int): (r: TimeLabel)
    ensures r.MinutesAgo? <==> diff < HourMs
    ensures r.MinutesAgo? ==> r.minutes * MinuteMs <= diff < (r.minutes + 1) * MinuteMs
    ensures r.HoursAgo? <==> HourMs <= diff < DayMs
    ensures r.HoursAgo? ==> 1 <= r.hours <= 23 && r.hours * HourMs <= diff < (r.hours + 1) * HourMs
    ensures r.OnDate? <==> DayMs <= diff
  {
    var minutes := diff / MinuteMs;
    var hours := minutes / 60;
    if minutes < 60 then MinutesAgo(minutes)
    else if hours < 24 then HoursAgo(hours)
    else OnDate
  }

  /** Rendered within a minute of the feed being built, the three entries read "15m ago", "45m ago" and "2h ago". */
  lemma RecentActivityLabels(nowMs: int, renderMs: int)
    requires nowMs <= renderMs < nowMs + MinuteMs
    ensures var a := RecentActivity(nowMs);
      && FormatTime(renderMs - a[0].timestamp) == MinutesAgo(15)
      && FormatTime(renderMs - a[1].timestamp) == MinutesAgo(45)
      && FormatTime(renderMs - a[2].timestamp) == HoursAgo(2)
  {
  }

  /** The inventory-health card: all well-stocked, or how many items need attention. */
  datatype Health = AllWellStocked | ItemsNeedAttention(count: nat)

  function InventoryHealth(lowStockItems: nat): (r: Health)
    ensures r.AllWellStocked? <==> lowStockItems == 0
    ensures r.ItemsNeedAttention? ==> r.count == lowStockItems
  {
    if lowStockItems == 0 then AllWellStocked else ItemsNeedAttention(lowStockItems)
  }

  /** The card says all is well exactly when every stored status is in-stock. */
  lemma HealthReflectsStore(s: seq<Product>, nowMs: int)
    ensures InventoryHealth(GetStats(s, nowMs).lowStockItems).AllWellStocked?
      <==> forall i :: 0 <= i < |s| ==> s[i].status == InStock
  {
  }
}
