/**
 * app/routers/stats.py: the dashboard statistics over the inventory rows,
 * in their integer parts.  Grouping by a key (a calendar date or a
 * category) is modelled as a tally: one group per distinct key, keys in
 * ascending string order, each group counting its rows and how many of
 * them are marked.
 */
module Stats {
  import opened Wrappers
  import opened Text
  import opened Timestamps
  import opened Entities
  import opened Store
  import opened ProductUtils

  // ---------------------------------------------------------------- grouping

  /** One group of a GROUP BY: its key, its row count, and the count of its marked rows. */
  datatype Group = Group(key: string, total: nat, marked: nat)

  /** Keys strictly ascending, so each key has one group. */
  predicate Ascending(t: seq<Group>) {
    forall i, j :: 0 <= i < j < |t| ==> LexLess(t[i].key, t[j].key)
  }

  /** Every group has a row, and no more marked rows than rows. */
  predicate Counted(t: seq<Group>) {
    forall i :: 0 <= i < |t| ==> 1 <= t[i].total && t[i].marked <= t[i].total
  }

  /** The total of the group with this key, 0 without one. */
  function TotalOf(t: seq<Group>, key: string): nat {
    if t == [] then 0 else if t[0].key == key then t[0].total else TotalOf(t[1..], key)
  }

  function MarkedOf(t: seq<Group>, key: string): nat {
    if t == [] then 0 else if t[0].key == key then t[0].marked else MarkedOf(t[1..], key)
  }

  /** Counts one more row with this key. */
  function AddTo(t: seq<Group>, key: string, marked: bool): (r: seq<Group>)
    requires Ascending(t) && Counted(t)
    ensures Ascending(r) && Counted(r)
    ensures r != [] && (r[0].key == key || (t != [] && r[0].key == t[0].key))
  {
    var one := if marked then 1 else 0;
    if t == [] then [Group(key, 1, one)]
    else if t[0].key == key then [Group(key, t[0].total + 1, t[0].marked + one)] + t[1..]
    else if LexLess(key, t[0].key) then
      AscendingCons(Group(key, 1, one), t);
      [Group(key, 1, one)] + t
    else
      LexLessTotal(key, t[0].key);
      var rest := AddTo(t[1..], key, marked);
      assert |t| > 1 ==> LexLess(t[0].key, t[1].key);
      AscendingCons(t[0], rest);
      [t[0]] + rest
  }

  lemma AscendingCons(g: Group, t: seq<Group>)
    requires Ascending(t) && (t != [] ==> LexLess(g.key, t[0].key))
    ensures Ascending([g] + t)
  {
    forall j | 0 < j < |t| ensures LexLess(g.key, t[j].key)
    {
      LexLessTransitive(g.key, t[0].key, t[j].key);
    }
  }

  /** A key below the first group's key has no group. */
  lemma BelowHead(t: seq<Group>, key: string)
    requires Ascending(t) && t != [] && LexLess(key, t[0].key)
    ensures TotalOf(t, key) == 0 && MarkedOf(t, key) == 0
  {
    forall i | 0 <= i < |t| ensures t[i].key != key
    {
      if i > 0 {
        LexLessTransitive(key, t[0].key, t[i].key);
      }
      LexLessIrreflexive(key);
    }
    AbsentKey(t, key);
  }

  /** The rows' keys grouped: `GROUP BY key ORDER BY key`. */
  function Tally(rows: seq<(string, bool)>): (r: seq<Group>)
    ensures Ascending(r) && Counted(r)
  {
    if rows == [] then [] else AddTo(Tally(rows[1..]), rows[0].0, rows[0].1)
  }

  /** How many rows have this key, and how many of those are marked. */
  function CountKey(rows: seq<(string, bool)>, key: string): nat {
    if rows == [] then 0 else (if rows[0].0 == key then 1 else 0) + CountKey(rows[1..], key)
  }

  function CountMarked(rows: seq<(string, bool)>, key: string): nat {
    if rows == [] then 0 else (if rows[0].0 == key && rows[0].1 then 1 else 0) + CountMarked(rows[1..], key)
  }

  lemma {:induction false} AddToCounts(t: seq<Group>, key: string, marked: bool, k: string)
    requires Ascending(t) && Counted(t)
    ensures TotalOf(AddTo(t, key, marked), k) == TotalOf(t, k) + (if k == key then 1 else 0)
    ensures MarkedOf(AddTo(t, key, marked), k) == MarkedOf(t, k) + (if k == key && marked then 1 else 0)
  {
    if t == [] || t[0].key == key {
    } else if LexLess(key, t[0].key) {
      if k == key {
        BelowHead(t, key);
      }
    } else {
      AscendingTail(t);
      AddToCounts(t[1..], key, marked, k);
      var r := AddTo(t, key, marked);
      assert r[0] == t[0] && r[1..] == AddTo(t[1..], key, marked);
    }
  }

  lemma AscendingTail(t: seq<Group>)
    requires Ascending(t) && Counted(t) && t != []
    ensures Ascending(t[1..]) && Counted(t[1..])
  {
  }

  /** Each group counts exactly the rows with its key, and the marked ones among them. */
  lemma {:induction false} TallyCounts(rows: seq<(string, bool)>, k: string)
    ensures TotalOf(Tally(rows), k) == CountKey(rows, k)
    ensures MarkedOf(Tally(rows), k) == CountMarked(rows, k)
  {
    if rows != [] {
      TallyCounts(rows[1..], k);
      AddToCounts(Tally(rows[1..]), rows[0].0, rows[0].1, k);
    }
  }

  /** The group at position i is the one `TotalOf` finds for its key. */
  lemma {:induction false} GroupAt(t: seq<Group>, i: nat)
    requires Ascending(t) && i < |t|
    ensures TotalOf(t, t[i].key) == t[i].total && MarkedOf(t, t[i].key) == t[i].marked
  {
    if i > 0 {
      LexLessIrreflexive(t[0].key);
      assert LexLess(t[0].key, t[i].key);
      GroupAt(t[1..], i - 1);
    }
  }

  /** A key no group has counts zero. */
  lemma {:induction false} AbsentKey(t: seq<Group>, k: string)
    requires forall i :: 0 <= i < |t| ==> t[i].key != k
    ensures TotalOf(t, k) == 0 && MarkedOf(t, k) == 0
  {
    if t != [] {
      AbsentKey(t[1..], k);
    }
  }

  /**
   * The tally in one statement: ascending distinct keys, each group with
   * the number of rows with its key and of marked rows among them, and a
   * group for every key some row has.
   */
  lemma TallyMeaning(rows: seq<(string, bool)>)
    ensures var t := Tally(rows);
      && Ascending(t)
      && (forall i :: 0 <= i < |t| ==> t[i].total == CountKey(rows, t[i].key) >= 1)
      && (forall i :: 0 <= i < |t| ==> t[i].marked == CountMarked(rows, t[i].key) <= t[i].total)
      && (forall k :: CountKey(rows, k) > 0 ==> exists i :: 0 <= i < |t| && t[i].key == k)
  {
    var t := Tally(rows);
    forall i | 0 <= i < |t|
      ensures t[i].total == CountKey(rows, t[i].key) && t[i].marked == CountMarked(rows, t[i].key)
    {
      GroupAt(t, i);
      TallyCounts(rows, t[i].key);
    }
    forall k | CountKey(rows, k) > 0
      ensures exists i :: 0 <= i < |t| && t[i].key == k
    {
      TallyCounts(rows, k);
      if forall i :: 0 <= i < |t| ==> t[i].key != k {
        AbsentKey(t, k);
      }
    }
  }

  // ---------------------------------------------------------------- get_expired_trend

  /** `cast(expiryDate, Date)` of an `isoformat()` string: its first ten characters, YYYY-MM-DD. */
  function DateOf(expiryDate: string): string {
    Take(expiryDate, 10)
  }

  /** The dates of the expired rows, each marked. */
  function ExpiredDays(rows: seq<InventoryRow>): (r: seq<(string, bool)>)
    ensures |r| <= |rows|
  {
    if rows == [] then []
    else (if rows[0].status == Expired then [(DateOf(rows[0].expiryDate), true)] else []) + ExpiredDays(rows[1..])
  }

  datatype ExpiredItem = ExpiredItem(date: string, expiredCount: nat)

  function ExpiredItems(t: seq<Group>): (r: seq<ExpiredItem>)
    ensures |r| == |t| && forall i :: 0 <= i < |t| ==> r[i] == ExpiredItem(t[i].key, t[i].total)
  {
    if t == [] then [] else [ExpiredItem(t[0].key, t[0].total)] + ExpiredItems(t[1..])
  }

  /** `get_expired_trend` */
  function GetExpiredTrend(rows: seq<InventoryRow>): (r: seq<ExpiredItem>)
    ensures rows == [] ==> r == []
    ensures forall i :: 0 <= i < |r| ==> r[i].expiredCount >= 1
  {
    TallyMeaning(ExpiredDays(rows));
    ExpiredItems(Tally(ExpiredDays(rows)))
  }

  /**
   * One item per calendar date on which some expired row expires, in
   * ascending date order, with the number of expired rows of that date.
   */
  lemma ExpiredTrendMeaning(rows: seq<InventoryRow>)
    ensures var r := GetExpiredTrend(rows);
      && (forall i, j :: 0 <= i < j < |r| ==> LexLess(r[i].date, r[j].date))
      && (forall i :: 0 <= i < |r| ==> r[i].expiredCount == CountKey(ExpiredDays(rows), r[i].date) >= 1)
      && (forall d :: CountKey(ExpiredDays(rows), d) > 0 ==> exists i :: 0 <= i < |r| && r[i].date == d)
  {
    var days := ExpiredDays(rows);
    var t := Tally(days);
    var r := GetExpiredTrend(rows);
    forall i | 0 <= i < |r| ensures r[i].expiredCount == CountKey(days, r[i].date)
    {
      GroupAt(t, i);
      TallyCounts(days, t[i].key);
    }
    forall d | CountKey(days, d) > 0
      ensures exists i :: 0 <= i < |r| && r[i].date == d
    {
      TallyCounts(days, d);
      if forall i :: 0 <= i < |t| ==> t[i].key != d {
        AbsentKey(t, d);
      }
      var i :| 0 <= i < |t| && t[i].key == d;
      assert r[i].date == d;
    }
  }

  /** The expired rows of a date are among the expired rows. */
  lemma {:induction false} ExpiredDaysCount(rows: seq<InventoryRow>)
    ensures |ExpiredDays(rows)| == Count(rows, (row: InventoryRow) => row.status == Expired)
  {
    if rows != [] {
      ExpiredDaysCount(rows[1..]);
    }
  }

  // ---------------------------------------------------------------- get_expiry_trends

  /** Every row's expiry date, marked when the row is expired. */
  function AllDays(rows: seq<InventoryRow>): (r: seq<(string, bool)>)
    ensures |r| == |rows|
  {
    if rows == [] then [] else [(DateOf(rows[0].expiryDate), rows[0].status == Expired)] + AllDays(rows[1..])
  }

  /** `ExpiryTrendItem` without the random `consumed` estimate. */
  datatype TrendItem = TrendItem(date: string, expiring: nat, active: int, wastedCost: nat)

  /** The mock cost of one wasted item. */
  const CostPerItem: nat := 50

  /** `get_expiry_trends`: one item per date, built in a loop over the grouped rows. */
  method GetExpiryTrends(rows: seq<InventoryRow>) returns (data: seq<TrendItem>)
    ensures |data| == |Tally(AllDays(rows))|
    ensures forall i :: 0 <= i < |data| ==> data[i].date == Tally(AllDays(rows))[i].key
    ensures forall d :: CountKey(AllDays(rows), d) > 0 ==> exists i :: 0 <= i < |data| && data[i].date == d
    ensures forall i, j :: 0 <= i < j < |data| ==> LexLess(data[i].date, data[j].date)
    ensures forall i :: 0 <= i < |data| ==>
      && data[i].expiring == CountKey(AllDays(rows), data[i].date)
      && data[i].wastedCost == CostPerItem * CountMarked(AllDays(rows), data[i].date)
      && 0 <= data[i].active == data[i].expiring - CountMarked(AllDays(rows), data[i].date)
  {
    var groups := Tally(AllDays(rows));
    TallyMeaning(AllDays(rows));
    data := [];
    var i := 0;
    while i < |groups|
      invariant 0 <= i <= |groups|
      invariant |data| == i
      invariant forall j :: 0 <= j < i ==> data[j].date == groups[j].key
      invariant forall j :: 0 <= j < i ==>
        && data[j].expiring == groups[j].total
        && data[j].wastedCost == CostPerItem * groups[j].marked
        && data[j].active == groups[j].total - groups[j].marked
    {
      var g := groups[i];
      var active := g.total - g.marked;
      data := data + [TrendItem(g.key, g.total, active, g.marked * CostPerItem)];
      i := i + 1;
    }
  }

  // ---------------------------------------------------------------- get_wastage_by_category

  /**
   * The categories of the expired rows that join a catalog product
   * (`join(Product, Product.id == UserProduct.productId)`), each marked.
   */
  function WastedCategories(rows: seq<InventoryRow>, products: seq<CatalogProduct>): (r: seq<(string, bool)>)
    ensures |r| <= |ExpiredDays(rows)|
  {
    if rows == [] then []
    else
      var here :=
        if rows[0].status == Expired then
          match FindProduct(products, rows[0].productId)
          case None => []
          case Some(k) => [(products[k].category, true)]
        else [];
      here + WastedCategories(rows[1..], products)
  }

  /** `WastageCategoryItem` with the count the percentage is computed from. */
  datatype CategoryCount = CategoryCount(category: string, count: nat)

  function CategoryCounts(t: seq<Group>): (r: seq<CategoryCount>)
    ensures |r| == |t| && forall i :: 0 <= i < |t| ==> r[i] == CategoryCount(t[i].key, t[i].total)
  {
    if t == [] then [] else [CategoryCount(t[0].key, t[0].total)] + CategoryCounts(t[1..])
  }

  /** `get_wastage_by_category`: nothing when no row is expired, else one count per category. */
  function GetWastageByCategory(rows: seq<InventoryRow>, products: seq<CatalogProduct>): (r: seq<CategoryCount>)
    ensures |ExpiredDays(rows)| == 0 ==> r == []
    ensures forall i :: 0 <= i < |r| ==> r[i].count >= 1
    ensures forall i, j :: 0 <= i < j < |r| ==> LexLess(r[i].category, r[j].category)
  {
    TallyMeaning(WastedCategories(rows, products));
    if |ExpiredDays(rows)| == 0 then [] else CategoryCounts(Tally(WastedCategories(rows, products)))
  }

  /** The sum of the counts of a tally. */
  function SumTotals(t: seq<Group>): nat {
    if t == [] then 0 else t[0].total + SumTotals(t[1..])
  }

  lemma {:induction false} AddToSum(t: seq<Group>, key: string, marked: bool)
    requires Ascending(t) && Counted(t)
    ensures SumTotals(AddTo(t, key, marked)) == SumTotals(t) + 1
  {
    if t != [] && t[0].key != key && !LexLess(key, t[0].key) {
      AscendingTail(t);
      AddToSum(t[1..], key, marked);
    }
  }

  lemma {:induction false} TallySum(rows: seq<(string, bool)>)
    ensures SumTotals(Tally(rows)) == |rows|
  {
    if rows != [] {
      TallySum(rows[1..]);
      AddToSum(Tally(rows[1..]), rows[0].0, rows[0].1);
    }
  }

  /**
   * The categories' counts add up to at most the number of expired rows
   * (rows without a catalog product drop out of the join), so the
   * percentages computed from them never add up to more than 100; and with
   * no expired row the reply is empty.
   */
  lemma WastageBounded(rows: seq<InventoryRow>, products: seq<CatalogProduct>)
    ensures |ExpiredDays(rows)| == 0 ==> GetWastageByCategory(rows, products) == []
    ensures |ExpiredDays(rows)| > 0 ==>
      var t := Tally(WastedCategories(rows, products));
      && SumTotals(t) == |WastedCategories(rows, products)| <= |ExpiredDays(rows)|
      && Ascending(t)
  {
    TallySum(WastedCategories(rows, products));
  }

  /** An expired row that joins a catalog product of this category. */
  predicate WastedAs(row: InventoryRow, products: seq<CatalogProduct>, category: string) {
    && row.status == Expired
    && FindProduct(products, row.productId).Some?
    && products[FindProduct(products, row.productId).value].category == category
  }

  /** The number of expired rows that join a catalog product of this category. */
  function WastedCount(rows: seq<InventoryRow>, products: seq<CatalogProduct>, category: string): nat {
    Count(rows, (row: InventoryRow) => WastedAs(row, products, category))
  }

  lemma {:induction false} WastedCategoriesCount(rows: seq<InventoryRow>, products: seq<CatalogProduct>, category: string)
    ensures CountKey(WastedCategories(rows, products), category) == WastedCount(rows, products, category)
  {
    if rows != [] {
      WastedCategoriesCount(rows[1..], products, category);
      var rest := WastedCategories(rows[1..], products);
      if rows[0].status == Expired && FindProduct(products, rows[0].productId).Some? {
        var k := FindProduct(products, rows[0].productId).value;
        assert WastedCategories(rows, products) == [(products[k].category, true)] + rest;
        assert ([(products[k].category, true)] + rest)[1..] == rest;
      } else {
        assert WastedCategories(rows, products) == rest;
      }
    }
  }

  /**
   * With some expired row, the reply has one count per category of an
   * expired row that joins a catalog product, in ascending category order,
   * each the number of such rows of that category; a category no such row
   * has does not appear.
   */
  lemma WastageMeaning(rows: seq<InventoryRow>, products: seq<CatalogProduct>)
    requires |ExpiredDays(rows)| > 0
    ensures var r := GetWastageByCategory(rows, products);
      && |r| == |Tally(WastedCategories(rows, products))|
      && (forall i :: 0 <= i < |r| ==> r[i].count == WastedCount(rows, products, r[i].category) >= 1)
      && (forall c :: WastedCount(rows, products, c) > 0 ==> exists i :: 0 <= i < |r| && r[i].category == c)
  {
    var cats := WastedCategories(rows, products);
    var t := Tally(cats);
    var r := GetWastageByCategory(rows, products);
    TallyMeaning(cats);
    forall i | 0 <= i < |r| ensures r[i].count == WastedCount(rows, products, r[i].category)
    {
      WastedCategoriesCount(rows, products, r[i].category);
    }
    forall c | WastedCount(rows, products, c) > 0
      ensures exists i :: 0 <= i < |r| && r[i].category == c
    {
      WastedCategoriesCount(rows, products, c);
      var i :| 0 <= i < |t| && t[i].key == c;
      assert r[i].category == c;
    }
  }

  // ---------------------------------------------------------------- get_wasted_vs_eaten

  datatype StatusCount = StatusCount(status: string, count: nat)

  function CountStatus(rows: seq<InventoryRow>, s: Status): (n: nat)
    ensures n <= |rows|
  {
    if rows == [] then 0 else (if rows[0].status == s then 1 else 0) + CountStatus(rows[1..], s)
  }

  /** `get_wasted_vs_eaten`: the expired count labelled "wasted", then the active count. */
  function GetWastedVsEaten(rows: seq<InventoryRow>): (r: seq<StatusCount>)
    ensures |r| == 2 && r[0].status == "wasted" && r[1].status == "active"
  {
    [StatusCount("wasted", CountStatus(rows, Expired)), StatusCount("active", CountStatus(rows, Active))]
  }

  /** Every row is either wasted or active, so the two counts add up to the number of rows. */
  lemma {:induction false} WastedPlusActive(rows: seq<InventoryRow>)
    ensures GetWastedVsEaten(rows)[0].count + GetWastedVsEaten(rows)[1].count == |rows|
  {
    if rows != [] {
      WastedPlusActive(rows[1..]);
    }
  }

  // ---------------------------------------------------------------- get_nutrients

  datatype NutrientsReply = NutrientsReply(item: string, nutrients: map<string, JsonValue>)

  const NoNutrients: string := "Product not found or no nutrition data"

  /** The keys `get_nutrients` pops before filtering. */
  const RemovedKeys: seq<string> := ["id", "addedAt"]

  /** `{col.name: getattr(nutrition_obj, col.name) for col in columns}`; a column never written reads as null. */
  function ColumnDict(row: NutritionRow): (r: map<string, JsonValue>)
    ensures r.Keys == NutritionModelColumns
  {
    map c | c in NutritionModelColumns :: if c in row.columns then row.columns[c] else JNull
  }

  /** `v not in (None, "N/A")` */
  predicate Shown(v: JsonValue) {
    v != JNull && v != JString("N/A")
  }

  /**
   * `get_nutrients`: the first product with this id joined with its
   * nutrition row; the row's columns without `id` and `addedAt`, and
   * without null or "N/A" values.
   */
  method GetNutrients(db: Db, productId: Id) returns (r: NutrientsReply)
    ensures FindProduct(db.products, productId).None? ==> r == NutrientsReply(NoNutrients, map[])
    ensures FindProduct(db.products, productId).Some? ==>
      var p := db.products[FindProduct(db.products, productId).value];
      match FindNutrition(db.nutrition, p.nutritionId)
      case None => r == NutrientsReply(NoNutrients, map[])
      case Some(n) =>
        var all := ColumnDict(db.nutrition[n]);
        && r.item == p.name
        && (forall k :: k in r.nutrients <==> k in all && k !in RemovedKeys && Shown(all[k]))
        && (forall k :: k in r.nutrients ==> r.nutrients[k] == all[k])
  {
    var found := FindProduct(db.products, productId);
    if found.None? {
      return NutrientsReply(NoNutrients, map[]);
    }
    var p := db.products[found.value];
    var n := FindNutrition(db.nutrition, p.nutritionId);
    if n.None? {
      return NutrientsReply(NoNutrients, map[]);
    }
    var shown := ShownNutrients(ColumnDict(db.nutrition[n.value]));
    r := NutrientsReply(p.name, shown);
  }

  /** Pops `id` and `addedAt`, then keeps the values that are neither null nor "N/A". */
  method ShownNutrients(all: map<string, JsonValue>) returns (shown: map<string, JsonValue>)
    ensures forall k :: k in shown <==> k in all && k !in RemovedKeys && Shown(all[k])
    ensures forall k :: k in shown ==> shown[k] == all[k]
  {
    var d := all;
    for i := 0 to |RemovedKeys|
      invariant forall k :: k in d <==> k in all && k !in RemovedKeys[..i]
      invariant forall k :: k in d ==> d[k] == all[k]
    {
      d := d - {RemovedKeys[i]};
    }
    assert RemovedKeys[..|RemovedKeys|] == RemovedKeys;
    shown := map k | k in d && Shown(d[k]) :: d[k];
  }
}
