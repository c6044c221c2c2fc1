/**
 * The aggregation engine (the `Sales` class): it holds the sale, product and
 * customer lists handed to its constructor, never changes them, and answers
 * every query by joining the lists on integer ids and folding them.
 */
module Sales {
  import opened Wrappers
  import opened Records
  import opened Grouping
  import opened Ranking

  /**
   * The engine's state. The three lists are assigned once, by the constructor,
   * and only read afterwards, so the engine is a value: no query can change them.
   */
  datatype Analyzer = Analyzer(sales: seq<Sale>, products: seq<Product>, customers: seq<Customer>)

  /** How many products the best- and worst-seller lists hold at most. */
  const ListLimit: nat := 5

  // ---------------------------------------------------------------------------
  // Lookups by id

  /** `getProductById`: the first product in list order with this id, or `None` (the source's `null`). */
  function ProductById(products: seq<Product>, id: int): (r: Option<Product>)
    ensures r.Some? ==> r.value in products && r.value.productId == id
  {
    if products == [] then None
    else if products[0].productId == id then Some(products[0])
    else ProductById(products[1..], id)
  }

  /**
   * The lookup finds nothing exactly when no product has the id, and otherwise
   * yields the earliest product with it: with duplicate ids the first entry wins.
   */
  lemma {:induction false} ProductByIdFirstMatch(products: seq<Product>, id: int)
    ensures ProductById(products, id).None? <==> forall i :: 0 <= i < |products| ==> products[i].productId != id
    ensures forall i :: 0 <= i < |products| && products[i].productId == id
                        && (forall j :: 0 <= j < i ==> products[j].productId != id)
                        ==> ProductById(products, id) == Some(products[i])
  {
    if products != [] {
      var tail := products[1..];
      assert forall i :: 0 <= i < |tail| ==> tail[i] == products[i + 1];
      ProductByIdFirstMatch(tail, id);
      if products[0].productId != id {
        forall i | 0 < i < |products| && products[i].productId == id
                   && (forall j :: 0 <= j < i ==> products[j].productId != id)
          ensures ProductById(products, id) == Some(products[i])
        {
          assert tail[i - 1] == products[i];
          assert forall j :: 0 <= j < i - 1 ==> tail[j].productId != id by {
            forall j | 0 <= j < i - 1 ensures tail[j].productId != id {
              assert tail[j] == products[j + 1];
            }
          }
        }
      }
    }
  }

  /** The first customer in list order with this id, or `None` (the `findFirst().orElse(null)` of the top-customer query). */
  function CustomerById(customers: seq<Customer>, id: int): (r: Option<Customer>)
    ensures r.Some? ==> r.value in customers && r.value.customerId == id
  {
    if customers == [] then None
    else if customers[0].customerId == id then Some(customers[0])
    else CustomerById(customers[1..], id)
  }

  /** The customer lookup finds nothing exactly when no customer has the id, and otherwise yields the earliest one. */
  lemma {:induction false} CustomerByIdFirstMatch(customers: seq<Customer>, id: int)
    ensures CustomerById(customers, id).None? <==> forall i :: 0 <= i < |customers| ==> customers[i].customerId != id
    ensures forall i :: 0 <= i < |customers| && customers[i].customerId == id
                        && (forall j :: 0 <= j < i ==> customers[j].customerId != id)
                        ==> CustomerById(customers, id) == Some(customers[i])
  {
    if customers != [] {
      var tail := customers[1..];
      assert forall i :: 0 <= i < |tail| ==> tail[i] == customers[i + 1];
      CustomerByIdFirstMatch(tail, id);
      if customers[0].customerId != id {
        forall i | 0 < i < |customers| && customers[i].customerId == id
                   && (forall j :: 0 <= j < i ==> customers[j].customerId != id)
          ensures CustomerById(customers, id) == Some(customers[i])
        {
          assert tail[i - 1] == customers[i];
          assert forall j :: 0 <= j < i - 1 ==> tail[j].customerId != id by {
            forall j | 0 <= j < i - 1 ensures tail[j].customerId != id {
              assert tail[j] == customers[j + 1];
            }
          }
        }
      }
    }
  }

  /** The price of the first product with this id, and 0 when there is none (`findFirst().orElse(0.0)`). */
  function PriceOf(products: seq<Product>, id: int): int
  {
    match ProductById(products, id)
    case Some(p) => p.price
    case None => 0
  }

  /** The price used for a sale is that of the first product in list order with its id, and 0 if none has it. */
  lemma PriceOfFirstMatch(products: seq<Product>, id: int)
    ensures (forall i :: 0 <= i < |products| ==> products[i].productId != id) ==> PriceOf(products, id) == 0
    ensures forall i :: 0 <= i < |products| && products[i].productId == id
                        && (forall j :: 0 <= j < i ==> products[j].productId != id)
                        ==> PriceOf(products, id) == products[i].price
  {
    ProductByIdFirstMatch(products, id);
  }

  /** Every sale names a product that exists: what the dereferencing queries rely on. */
  predicate Resolves(a: Analyzer)
  {
    forall i :: 0 <= i < |a.sales| ==> ProductById(a.products, a.sales[i].productId).Some?
  }

  // ---------------------------------------------------------------------------
  // Total revenue

  /** The sum of the matched product prices of `sales`. */
  function PriceTotal(sales: seq<Sale>, products: seq<Product>): int
    requires forall i :: 0 <= i < |sales| ==> ProductById(products, sales[i].productId).Some?
  {
    if sales == [] then 0
    else
      PriceTotal(sales[..|sales| - 1], products)
      + ProductById(products, sales[|sales| - 1].productId).value.price
  }

  /**
   * `getTotalSalesAmount`: dereferences each sale's product, so every product must exist.
   * It is then the zero-default revenue, and the sum of all customers' spending and of
   * all monthly buckets.
   */
  function TotalSalesAmount(a: Analyzer): (total: int)
    requires Resolves(a)
    ensures total == Revenue(a)
    ensures total == SumValues(Spending(a))
    ensures total == SumValues(MonthlyTrends(a))
  {
    PriceTotalIsRevenue(a);
    RevenueIsSpendingSum(a);
    RevenueIsMonthlySum(a);
    PriceTotal(a.sales, a.products)
  }

  // ---------------------------------------------------------------------------
  // Counts per product and per customer

  /** The product id of every sale, in sale order. */
  function ProductIds(sales: seq<Sale>): seq<int>
  {
    seq(|sales|, i requires 0 <= i < |sales| => sales[i].productId)
  }

  /** The customer id of every sale, in sale order. */
  function CustomerIds(sales: seq<Sale>): seq<int>
  {
    seq(|sales|, i requires 0 <= i < |sales| => sales[i].customerId)
  }

  /** `getProductSalesCount`: how many sales carry each product id. */
  function ProductSalesCount(a: Analyzer): (counts: map<int, int>)
    ensures forall id :: id in counts <==> exists i :: 0 <= i < |a.sales| && a.sales[i].productId == id
    ensures forall id :: id in counts ==> counts[id] == multiset(ProductIds(a.sales))[id] >= 1
  {
    assert forall i :: 0 <= i < |a.sales| ==> ProductIds(a.sales)[i] == a.sales[i].productId;
    Tally(ProductIds(a.sales))
  }

  /** `getCustomerPurchaseCount`: how many sales carry each customer id. */
  function CustomerPurchaseCount(a: Analyzer): (counts: map<int, int>)
    ensures forall id :: id in counts <==> exists i :: 0 <= i < |a.sales| && a.sales[i].customerId == id
    ensures forall id :: id in counts ==> counts[id] == multiset(CustomerIds(a.sales))[id] >= 1
  {
    assert forall i :: 0 <= i < |a.sales| ==> CustomerIds(a.sales)[i] == a.sales[i].customerId;
    Tally(CustomerIds(a.sales))
  }

  /** Every sale is counted once: the product counts add up to the number of sales. */
  lemma ProductSalesCountTotal(a: Analyzer)
    ensures SumValues(ProductSalesCount(a)) == |a.sales|
  {
    TallyTotal(ProductIds(a.sales));
  }

  /** Every sale is counted once: the customer counts add up to the number of sales. */
  lemma CustomerPurchaseCountTotal(a: Analyzer)
    ensures SumValues(CustomerPurchaseCount(a)) == |a.sales|
  {
    TallyTotal(CustomerIds(a.sales));
  }

  // ---------------------------------------------------------------------------
  // Spending per customer

  /** One (customer id, price or 0) entry per sale, in sale order. */
  function SpendingEntries(a: Analyzer): seq<(int, int)>
  {
    seq(|a.sales|, i requires 0 <= i < |a.sales| => (a.sales[i].customerId, PriceOf(a.products, a.sales[i].productId)))
  }

  /** The spending map: per customer id of the sales, the sum of its sales' prices. */
  function Spending(a: Analyzer): map<int, int>
  {
    Group(SpendingEntries(a))
  }

  /** The spending map has an entry for exactly the customer ids that occur in the sales. */
  lemma SpendingKeys(a: Analyzer)
    ensures forall c :: c in Spending(a) <==> exists i :: 0 <= i < |a.sales| && a.sales[i].customerId == c
  {
    var entries := SpendingEntries(a);
    KeysMembership(entries);
    forall c ensures c in Spending(a) <==> exists i :: 0 <= i < |a.sales| && a.sales[i].customerId == c {
      if c in Spending(a) {
        var i :| 0 <= i < |entries| && entries[i].0 == c;
        assert a.sales[i].customerId == c;
      }
      if exists i :: 0 <= i < |a.sales| && a.sales[i].customerId == c {
        var i :| 0 <= i < |a.sales| && a.sales[i].customerId == c;
        assert entries[i].0 == c;
      }
    }
  }

  /** `getCustomerSpending`: fills a fresh map sale by sale with `merge(customerId, price, sum)`. */
  method CustomerSpending(a: Analyzer) returns (spending: map<int, int>)
    ensures spending == Spending(a)
  {
    ghost var entries := SpendingEntries(a);
    spending := map[];
    assert entries[..0] == [];
    assert Group(entries[..0]) == map[];
    for i := 0 to |a.sales|
      invariant spending == Group(entries[..i])
    {
      var sale := a.sales[i];
      var customer := sale.customerId;
      var price := PriceOf(a.products, sale.productId);
      assert entries[i] == (customer, price);
      ghost var done := entries[..i];
      assert entries[..i + 1] == done + [(customer, price)];
      GroupSnoc(done, customer, price);
      spending := spending[customer := (if customer in spending then spending[customer] else 0) + price];
    }
    assert entries[..|a.sales|] == entries;
  }

  /**
   * One more sale adds its product's price (0 when the product is missing) to its
   * customer's entry, creating the entry if needed, and changes nothing else.
   */
  lemma SpendingAppend(a: Analyzer, sale: Sale)
    ensures var before := Spending(a);
            var c := sale.customerId;
            Spending(a.(sales := a.sales + [sale]))
              == before[c := (if c in before then before[c] else 0) + PriceOf(a.products, sale.productId)]
  {
    var longer := a.(sales := a.sales + [sale]);
    assert SpendingEntries(longer) == SpendingEntries(a) + [(sale.customerId, PriceOf(a.products, sale.productId))];
    GroupSnoc(SpendingEntries(a), sale.customerId, PriceOf(a.products, sale.productId));
  }

  /** A sale whose product is missing contributes nothing, though its customer still gets an entry. */
  lemma SpendingMissingProduct(a: Analyzer, sale: Sale)
    requires ProductById(a.products, sale.productId).None?
    ensures var before := Spending(a);
            var after := Spending(a.(sales := a.sales + [sale]));
            && after.Keys == before.Keys + {sale.customerId}
            && (forall c :: c in before ==> after[c] == before[c])
            && (sale.customerId !in before ==> after[sale.customerId] == 0)
  {
    SpendingAppend(a, sale);
  }

  /**
   * The revenue as the other queries count it: every sale adds its product's
   * price, and a sale whose product is missing adds 0 instead of failing.
   */
  function Revenue(a: Analyzer): int
  {
    Total(SpendingEntries(a))
  }

  /** Where every product exists, the summed prices of the sales are that revenue. */
  lemma {:induction false} PriceTotalIsRevenue(a: Analyzer)
    requires Resolves(a)
    ensures PriceTotal(a.sales, a.products) == Revenue(a)
    decreases |a.sales|
  {
    if a.sales != [] {
      var init := a.(sales := a.sales[..|a.sales| - 1]);
      assert SpendingEntries(a)[..|a.sales| - 1] == SpendingEntries(init);
      PriceTotalIsRevenue(init);
    }
  }

  /** The revenue is the sum of all customers' spending, whether or not every product exists. */
  lemma RevenueIsSpendingSum(a: Analyzer)
    ensures Revenue(a) == SumValues(Spending(a))
  {
    GroupTotal(SpendingEntries(a));
  }

  /**
   * One sale of product 7, which the catalogue lacks: the spending map and the
   * zero-default monthly map book 0 for it, while the total and the monthly
   * query as written cannot dereference the product.
   */
  lemma DanglingSaleExample()
    ensures var a := Analyzer([Sale(1, DateTime(2024, 3, 1, 0, 0, 0), 1, 7)], [Product(1, "Pen", 2)], []);
            && !Resolves(a)
            && Revenue(a) == 0
            && Spending(a) == map[1 := 0]
            && MonthlyTrends(a) == map[MonthLabel(3) := 0]
  {
    var a := Analyzer([Sale(1, DateTime(2024, 3, 1, 0, 0, 0), 1, 7)], [Product(1, "Pen", 2)], []);
    assert ProductById(a.products, 7) == None;
    assert SpendingEntries(a) == [(1, 0)];
    GroupSnoc([], 1, 0);
    assert [(1, 0)] == [] + [(1, 0)];
    assert MonthlyEntries(a) == [(MonthLabel(3), 0)];
    GroupSnoc([], MonthLabel(3), 0);
    assert [(MonthLabel(3), 0)] == [] + [(MonthLabel(3), 0)];
  }

  // ---------------------------------------------------------------------------
  // Monthly trends

  /** One (month name, price or 0) entry per sale, in sale order. */
  function MonthlyEntries(a: Analyzer): seq<(MonthLabel, int)>
  {
    seq(|a.sales|, i requires 0 <= i < |a.sales| =>
      (MonthName(a.sales[i].saleDateTime), PriceOf(a.products, a.sales[i].productId)))
  }

  /** The monthly trend map: per month name of the sales, the sum of that month's sale prices. */
  function MonthlyTrends(a: Analyzer): map<MonthLabel, int>
  {
    Group(MonthlyEntries(a))
  }

  /** The monthly trend map has a bucket for exactly the months in which some sale was made, whatever its year. */
  lemma MonthlyTrendsKeys(a: Analyzer)
    ensures forall m :: m in MonthlyTrends(a) <==> exists i :: 0 <= i < |a.sales| && a.sales[i].saleDateTime.month == m.month
  {
    var entries := MonthlyEntries(a);
    KeysMembership(entries);
    forall m ensures m in MonthlyTrends(a) <==> exists i :: 0 <= i < |a.sales| && a.sales[i].saleDateTime.month == m.month {
      if m in MonthlyTrends(a) {
        var i :| 0 <= i < |entries| && entries[i].0 == m;
        assert a.sales[i].saleDateTime.month == m.month;
      }
      if exists i :: 0 <= i < |a.sales| && a.sales[i].saleDateTime.month == m.month {
        var i :| 0 <= i < |a.sales| && a.sales[i].saleDateTime.month == m.month;
        assert entries[i].0 == m;
      }
    }
  }

  /** `getMonthlySalesTrends`: dereferences each sale's product, so every product must exist. */
  method MonthlySalesTrends(a: Analyzer) returns (trends: map<MonthLabel, int>)
    requires Resolves(a)
    ensures trends == MonthlyTrends(a)
  {
    ghost var entries := MonthlyEntries(a);
    trends := map[];
    assert entries[..0] == [];
    assert Group(entries[..0]) == map[];
    for i := 0 to |a.sales|
      invariant trends == Group(entries[..i])
    {
      var sale := a.sales[i];
      var month := MonthName(sale.saleDateTime);
      var product := ProductById(a.products, sale.productId);
      var price := product.value.price;
      assert entries[i] == (month, price);
      ghost var done := entries[..i];
      assert entries[..i + 1] == done + [(month, price)];
      GroupSnoc(done, month, price);
      trends := trends[month := (if month in trends then trends[month] else 0) + price];
    }
    assert entries[..|a.sales|] == entries;
  }

  /** The year is ignored: moving a sale to another year leaves every monthly bucket as it was. */
  lemma MonthlyTrendsIgnoreYear(a: Analyzer, k: nat, year: int)
    requires k < |a.sales|
    ensures var sale := a.sales[k];
            var moved := sale.(saleDateTime := sale.saleDateTime.(year := year));
            MonthlyTrends(a.(sales := a.sales[k := moved])) == MonthlyTrends(a)
  {
    var sale := a.sales[k];
    var moved := sale.(saleDateTime := sale.saleDateTime.(year := year));
    assert MonthlyEntries(a.(sales := a.sales[k := moved])) == MonthlyEntries(a);
  }

  /** The revenue is the sum of all monthly buckets, whether or not every product exists. */
  lemma RevenueIsMonthlySum(a: Analyzer)
    ensures Revenue(a) == SumValues(MonthlyTrends(a))
  {
    GroupTotal(MonthlyEntries(a));
    TotalOfAmounts(MonthlyEntries(a), SpendingEntries(a));
  }

  // ---------------------------------------------------------------------------
  // Best and worst sellers

  /** Each id looked up among the products, in order (`map(entry -> getProductById(entry.getKey()))`). */
  function Lookups(products: seq<Product>, ids: seq<int>): (r: seq<Option<Product>>)
    ensures |r| == |ids|
    ensures forall i :: 0 <= i < |ids| ==>
              (r[i].None? <==> forall j :: 0 <= j < |products| ==> products[j].productId != ids[i])
    ensures forall i :: 0 <= i < |ids| && r[i].Some? ==> r[i].value in products && r[i].value.productId == ids[i]
    ensures forall i, j :: 0 <= i < |ids| && 0 <= j < |products| && products[j].productId == ids[i]
                           && (forall k :: 0 <= k < j ==> products[k].productId != ids[i])
                           ==> r[i] == Some(products[j])
  {
    forall i | 0 <= i < |ids|
      ensures ProductById(products, ids[i]).None? <==> forall j :: 0 <= j < |products| ==> products[j].productId != ids[i]
      ensures forall j :: 0 <= j < |products| && products[j].productId == ids[i]
                          && (forall k :: 0 <= k < j ==> products[k].productId != ids[i])
                          ==> ProductById(products, ids[i]) == Some(products[j])
    {
      ProductByIdFirstMatch(products, ids[i]);
    }
    seq(|ids|, i requires 0 <= i < |ids| => ProductById(products, ids[i]))
  }

  /**
   * Looking up a list of ids ranked by `counts` keeps the products found in rank order,
   * and a product whose id is ranked but not listed does not rank ahead of a found one.
   */
  lemma LookupsRanked(products: seq<Product>, ids: seq<int>, counts: map<int, int>, dir: Direction)
    requires forall i :: 0 <= i < |ids| ==> ids[i] in counts
    requires forall i, j :: 0 <= i < j < |ids| ==> InOrder(dir, counts[ids[i]], counts[ids[j]])
    requires forall x, y :: x in counts && x !in ids && y in ids ==> InOrder(dir, counts[y], counts[x])
    ensures var r := Lookups(products, ids);
            && (forall i :: 0 <= i < |r| && r[i].Some? ==> r[i].value.productId in counts)
            && (forall i, j :: 0 <= i < j < |r| && r[i].Some? && r[j].Some? ==>
                  InOrder(dir, counts[r[i].value.productId], counts[r[j].value.productId]))
            && (forall p, i :: p in products && p.productId in counts && p.productId !in ids && 0 <= i < |r| && r[i].Some? ==>
                  InOrder(dir, counts[r[i].value.productId], counts[p.productId]))
  {
  }

  /**
   * The ids of `getTopProducts`: the product counts, visited in the map's iteration
   * `order`, sorted by descending count and cut to `ListLimit`.
   */
  function TopProductIds(a: Analyzer, order: seq<int>): seq<int>
    requires Enumerates(order, ProductSalesCount(a))
  {
    Select(order, ProductSalesCount(a), Descending, ListLimit)
  }

  /**
   * `getTopProducts`: each selected id looked up, `None` where no product has it. A product
   * that is listed is the first catalogue entry with its id, which was sold; listed products run by non-increasing
   * count, and no sold product left off the list was sold more often than a listed one.
   */
  function TopProducts(a: Analyzer, order: seq<int>): (r: seq<Option<Product>>)
    requires Enumerates(order, ProductSalesCount(a))
    ensures |r| == |TopProductIds(a, order)|
    ensures forall i :: 0 <= i < |r| ==>
              (r[i].None? <==> forall j :: 0 <= j < |a.products| ==> a.products[j].productId != TopProductIds(a, order)[i])
    ensures forall i :: 0 <= i < |r| && r[i].Some? ==>
              && r[i].value in a.products
              && r[i].value.productId == TopProductIds(a, order)[i]
              && r[i].value.productId in ProductSalesCount(a)
    ensures forall i, j :: 0 <= i < |r| && 0 <= j < |a.products| && a.products[j].productId == TopProductIds(a, order)[i]
                           && (forall k :: 0 <= k < j ==> a.products[k].productId != TopProductIds(a, order)[i])
                           ==> r[i] == Some(a.products[j])
    ensures forall i, j :: 0 <= i < j < |r| && r[i].Some? && r[j].Some? ==>
              ProductSalesCount(a)[r[i].value.productId] >= ProductSalesCount(a)[r[j].value.productId]
    ensures forall p, i :: p in a.products && p.productId in ProductSalesCount(a) && p.productId !in TopProductIds(a, order)
                           && 0 <= i < |r| && r[i].Some? ==>
              ProductSalesCount(a)[p.productId] <= ProductSalesCount(a)[r[i].value.productId]
  {
    var ids := TopProductIds(a, order);
    TopProductIdsSpec(a, order);
    LookupsRanked(a.products, ids, ProductSalesCount(a), Descending);
    Lookups(a.products, ids)
  }

  /** The ids of `getUnpopularProducts`: as for the top products, by ascending count. */
  function UnpopularProductIds(a: Analyzer, order: seq<int>): seq<int>
    requires Enumerates(order, ProductSalesCount(a))
  {
    Select(order, ProductSalesCount(a), Ascending, ListLimit)
  }

  /**
   * `getUnpopularProducts`: each selected id looked up, `None` where no product has it. A product
   * that is listed is the first catalogue entry with its id, which was sold; listed products run by non-decreasing
   * count, and no sold product left off the list was sold less often than a listed one.
   */
  function UnpopularProducts(a: Analyzer, order: seq<int>): (r: seq<Option<Product>>)
    requires Enumerates(order, ProductSalesCount(a))
    ensures |r| == |UnpopularProductIds(a, order)|
    ensures forall i :: 0 <= i < |r| ==>
              (r[i].None? <==> forall j :: 0 <= j < |a.products| ==> a.products[j].productId != UnpopularProductIds(a, order)[i])
    ensures forall i :: 0 <= i < |r| && r[i].Some? ==>
              && r[i].value in a.products
              && r[i].value.productId == UnpopularProductIds(a, order)[i]
              && r[i].value.productId in ProductSalesCount(a)
    ensures forall i, j :: 0 <= i < |r| && 0 <= j < |a.products| && a.products[j].productId == UnpopularProductIds(a, order)[i]
                           && (forall k :: 0 <= k < j ==> a.products[k].productId != UnpopularProductIds(a, order)[i])
                           ==> r[i] == Some(a.products[j])
    ensures forall i, j :: 0 <= i < j < |r| && r[i].Some? && r[j].Some? ==>
              ProductSalesCount(a)[r[i].value.productId] <= ProductSalesCount(a)[r[j].value.productId]
    ensures forall p, i :: p in a.products && p.productId in ProductSalesCount(a) && p.productId !in UnpopularProductIds(a, order)
                           && 0 <= i < |r| && r[i].Some? ==>
              ProductSalesCount(a)[p.productId] >= ProductSalesCount(a)[r[i].value.productId]
  {
    var ids := UnpopularProductIds(a, order);
    UnpopularProductIdsSpec(a, order);
    LookupsRanked(a.products, ids, ProductSalesCount(a), Ascending);
    Lookups(a.products, ids)
  }

  /**
   * The best sellers: `min(5, number of sold product ids)` distinct sold ids, counts
   * non-increasing along the list, and no id left out sold strictly more than one kept.
   */
  lemma TopProductIdsSpec(a: Analyzer, order: seq<int>)
    requires Enumerates(order, ProductSalesCount(a))
    ensures var counts := ProductSalesCount(a);
            var ids := TopProductIds(a, order);
            && |ids| == (if ListLimit < |counts.Keys| then ListLimit else |counts.Keys|)
            && Distinct(ids)
            && (forall i :: 0 <= i < |ids| ==> ids[i] in counts)
            && (forall i, j :: 0 <= i < j < |ids| ==> counts[ids[i]] >= counts[ids[j]])
            && (forall x, y :: x in counts && x !in ids && y in ids ==> counts[x] <= counts[y])
  {
    var counts := ProductSalesCount(a);
    EnumeratesScored(order, counts);
    EnumerationSize(order, counts);
    SelectSpec(order, counts, Descending, ListLimit);
  }

  /**
   * The worst sellers: `min(5, number of sold product ids)` distinct sold ids, counts
   * non-decreasing along the list, and no id left out sold strictly less than one kept.
   */
  lemma UnpopularProductIdsSpec(a: Analyzer, order: seq<int>)
    requires Enumerates(order, ProductSalesCount(a))
    ensures var counts := ProductSalesCount(a);
            var ids := UnpopularProductIds(a, order);
            && |ids| == (if ListLimit < |counts.Keys| then ListLimit else |counts.Keys|)
            && Distinct(ids)
            && (forall i :: 0 <= i < |ids| ==> ids[i] in counts)
            && (forall i, j :: 0 <= i < j < |ids| ==> counts[ids[i]] <= counts[ids[j]])
            && (forall x, y :: x in counts && x !in ids && y in ids ==> counts[x] >= counts[y])
  {
    var counts := ProductSalesCount(a);
    EnumeratesScored(order, counts);
    EnumerationSize(order, counts);
    SelectSpec(order, counts, Ascending, ListLimit);
  }

  // ---------------------------------------------------------------------------
  // Top customers

  /** Each id looked up in order; ids without a customer record are dropped (`filter(Objects::nonNull)`). */
  function FindCustomers(customers: seq<Customer>, ids: seq<int>): seq<Customer>
  {
    if ids == [] then []
    else
      match CustomerById(customers, ids[0])
      case Some(c) => [c] + FindCustomers(customers, ids[1..])
      case None => FindCustomers(customers, ids[1..])
  }

  /** A customer is found exactly when it is the lookup result of one of the ids. */
  lemma {:induction false} FindCustomersMembers(customers: seq<Customer>, ids: seq<int>)
    ensures forall c :: c in FindCustomers(customers, ids) <==> exists k :: k in ids && CustomerById(customers, k) == Some(c)
  {
    if ids != [] {
      FindCustomersMembers(customers, ids[1..]);
      assert forall k :: k in ids <==> k == ids[0] || k in ids[1..] by {
        assert ids == [ids[0]] + ids[1..];
      }
    }
  }

  /** Dropping ids keeps the found customers in the order of their ids. */
  lemma {:induction false} FindCustomersRanked(customers: seq<Customer>, ids: seq<int>, score: map<int, int>)
    requires Scored(ids, score) && Ranked(ids, score, Descending)
    ensures forall c :: c in FindCustomers(customers, ids) ==> c.customerId in ids
    ensures forall i, j :: 0 <= i < j < |FindCustomers(customers, ids)| ==>
              score[FindCustomers(customers, ids)[i].customerId] >= score[FindCustomers(customers, ids)[j].customerId]
  {
    if ids != [] {
      var tail := ids[1..];
      assert forall i :: 0 <= i < |tail| ==> tail[i] == ids[i + 1];
      var rest := FindCustomers(customers, tail);
      FindCustomersRanked(customers, tail, score);
      forall i | 0 <= i < |rest| ensures rest[i].customerId in ids && score[ids[0]] >= score[rest[i].customerId] {
        assert rest[i] in rest;
        var j :| 0 <= j < |tail| && tail[j] == rest[i].customerId;
        assert ids[j + 1] == rest[i].customerId;
      }
      var found := CustomerById(customers, ids[0]);
      if found.Some? {
        var r := [found.value] + rest;
        assert r == FindCustomers(customers, ids);
        forall i, j | 0 <= i < j < |r| ensures score[r[i].customerId] >= score[r[j].customerId] {
          assert r[j] == rest[j - 1];
          if 0 < i {
            assert r[i] == rest[i - 1];
          }
        }
      } else {
        assert rest == FindCustomers(customers, ids);
      }
    }
  }

  /** Distinct ids find customers with distinct ids: no customer is listed twice. */
  lemma {:induction false} FindCustomersDistinct(customers: seq<Customer>, ids: seq<int>)
    requires Distinct(ids)
    ensures forall i, j :: 0 <= i < j < |FindCustomers(customers, ids)| ==>
              FindCustomers(customers, ids)[i].customerId != FindCustomers(customers, ids)[j].customerId
  {
    if ids != [] {
      var h, tail := ids[0], ids[1..];
      assert multiset(ids)[h] <= 1;
      assert ids == [h] + tail;
      assert multiset(ids) == multiset{h} + multiset(tail);
      forall x ensures multiset(tail)[x] <= 1 {
        assert multiset(ids)[x] <= 1;
      }
      assert h !in multiset(tail);
      FindCustomersDistinct(customers, tail);
      FindCustomersMembers(customers, tail);
      var rest := FindCustomers(customers, tail);
      var found := CustomerById(customers, ids[0]);
      if found.Some? {
        var r := [found.value] + rest;
        assert r == FindCustomers(customers, ids);
        forall i, j | 0 <= i < j < |r| ensures r[i].customerId != r[j].customerId {
          assert r[j] == rest[j - 1];
          if i == 0 {
            assert rest[j - 1] in rest;
            var k :| k in tail && CustomerById(customers, k) == Some(rest[j - 1]);
            assert k in multiset(tail);
          } else {
            assert r[i] == rest[i - 1];
          }
        }
      } else {
        assert rest == FindCustomers(customers, ids);
      }
    }
  }

  /**
   * Looking up ids ranked by descending score that are exactly the scored ids at or
   * above the threshold: a customer is found exactly when it is the first record
   * with such an id, and the customers found run by non-increasing score.
   */
  lemma RankedCustomers(customers: seq<Customer>, ranked: seq<int>, score: map<int, int>, threshold: int)
    requires Scored(ranked, score) && Ranked(ranked, score, Descending)
    requires forall k :: k in ranked <==> k in score && score[k] >= threshold
    ensures forall c :: c in FindCustomers(customers, ranked) <==>
              && c.customerId in score
              && score[c.customerId] >= threshold
              && CustomerById(customers, c.customerId) == Some(c)
    ensures forall i, j :: 0 <= i < j < |FindCustomers(customers, ranked)| ==>
              score[FindCustomers(customers, ranked)[i].customerId] >= score[FindCustomers(customers, ranked)[j].customerId]
  {
    var r := FindCustomers(customers, ranked);
    FindCustomersMembers(customers, ranked);
    FindCustomersRanked(customers, ranked, score);
    forall c ensures c in r <==> c.customerId in score && score[c.customerId] >= threshold
                                 && CustomerById(customers, c.customerId) == Some(c)
    {
      if c in r {
        var k :| k in ranked && CustomerById(customers, k) == Some(c);
      }
    }
  }

  /**
   * `getTopCustomers(threshold)`: the spending entries at or above the threshold,
   * visited in the map's iteration `order`, sorted by descending spending, each id
   * looked up among the customers, ids without a record dropped. A customer is
   * listed exactly when it is the first record with its id and that id spent at
   * least the threshold (inclusive); the list runs by non-increasing spending.
   */
  function TopCustomers(a: Analyzer, threshold: int, order: seq<int>): (r: seq<Customer>)
    requires Enumerates(order, Spending(a))
    ensures forall c :: c in r <==>
              && c.customerId in Spending(a)
              && Spending(a)[c.customerId] >= threshold
              && CustomerById(a.customers, c.customerId) == Some(c)
    ensures forall i, j :: 0 <= i < j < |r| ==> Spending(a)[r[i].customerId] >= Spending(a)[r[j].customerId]
    ensures forall i, j :: 0 <= i < j < |r| ==> r[i].customerId != r[j].customerId
  {
    var spending := Spending(a);
    EnumeratesScored(order, spending);
    var kept := AtLeast(order, spending, threshold);
    var ranked := Sort(kept, spending, Descending);
    assert forall k :: k in ranked <==> k in spending && spending[k] >= threshold by {
      forall k ensures k in ranked <==> k in spending && spending[k] >= threshold {
        assert k in ranked <==> k in multiset(ranked);
        assert k in kept <==> k in multiset(kept);
        assert k in order <==> k in spending;
      }
    }
    RankedCustomers(a.customers, ranked, spending, threshold);
    assert Distinct(ranked) by {
      forall x ensures multiset(ranked)[x] <= 1 {
        assert multiset(order)[x] <= 1;
      }
    }
    FindCustomersDistinct(a.customers, ranked);
    FindCustomers(a.customers, ranked)
  }

  /** Raising the threshold never adds a customer: the result shrinks or stays the same. */
  lemma TopCustomersMonotone(a: Analyzer, low: int, high: int, order: seq<int>)
    requires low <= high
    requires Enumerates(order, Spending(a))
    ensures forall c :: c in TopCustomers(a, high, order) ==> c in TopCustomers(a, low, order)
  {
  }
}
