# Sales aggregation engine in Dafny

This project models the `Sales` class of a small sales-reporting
application. The class holds three in-memory lists: sales (id, timestamp,
customer id, product id), products (id, name, price) and customers (id,
name). It answers reporting queries by joining those lists on integer ids
and folding them:

- the total revenue;
- the number of sales per product and the number of purchases per customer;
- each customer's spending;
- revenue per calendar month;
- the five best-selling and the five least-selling products;
- the customers whose spending reaches a threshold, highest first.

Layout:

- `wrappers.dfy`: `Option`. It stands for the source's `null` and `Optional`.
- `records.dfy`: the `Sale`, `Product` and `Customer` records, a `DateTime`,
  and the month label used as a trend key.
- `grouping.dfy`: a group-by-key-and-sum over a sequence of (key, amount)
  entries. It models both `Map.merge(k, v, Double::sum)` in a loop and
  `groupingBy(..., counting())`. It also defines the sum of a map's values
  and proves that grouping preserves the total.
- `ranking.dfy`: the stable sort of a map's entries by value in either
  direction, the `limit(n)` that follows it, and the threshold filter.
- `sales.dfy`: the engine itself, as the datatype `Analyzer`. The
  constructor only stores the three lists, and no query ever writes them, so
  the engine is a value. Each query is a function of it.
  `getCustomerSpending` and `getMonthlySalesTrends` fill a map in a loop in
  the source, so they are methods with loop invariants. Each is proved equal
  to a specification function.

`HashMap` hands out its entries in an order the program does not control.
The product and customer rankings therefore take that order as a parameter
`order`. Any duplicate-free listing of the map's keys is allowed, so every
ranking property holds whatever the iteration order, i.e. up to ties.

## Model

| member | source | states |
|---|---|---|
| Sales.ProductById | Sales.java:133-140 | A found product is in the product list and carries the requested id |
| Sales.ProductByIdFirstMatch | Sales.java:133-140 | The lookup is `None` exactly when no product has the id; otherwise it is the product at the earliest index with that id |
| Sales.CustomerById | Sales.java:92-96 | A found customer is in the customer list and carries the requested id |
| Sales.CustomerByIdFirstMatch | Sales.java:92-96 | The lookup is `None` exactly when no customer has the id; otherwise it is the earliest customer with that id |
| Sales.PriceOfFirstMatch | Sales.java:68-74 | The price used for a sale is the first matching product's price, and 0 when no product matches |
| Sales.TotalSalesAmount | Sales.java:20-27 | When every sale's product exists, the total equals the zero-default revenue `Revenue`, the sum of all customers' spending, and the sum of all monthly buckets |
| Sales.PriceTotalIsRevenue | Sales.java:23-26 | When every sale's product exists, summing the dereferenced prices sale by sale gives the zero-default revenue |
| Sales.RevenueIsSpendingSum | Sales.java:63-81 | For every input, dangling sales included, the zero-default revenue equals the sum of the spending map's values |
| Sales.RevenueIsMonthlySum | Sales.java:103-119 | For every input, the zero-default revenue equals the sum of the monthly trend map's values |
| Sales.DanglingSaleExample | Sales.java:24 | Input with one sale of a missing product: it does not resolve, so the total and monthly queries as written cannot dereference it. The spending map gives that customer 0, the zero-default monthly map gives its month 0, and the revenue is 0 |
| Sales.ProductSalesCount | Sales.java:121-125 | A product id is a key exactly when some sale carries it; its value is the number of sales with that id, at least 1 |
| Sales.ProductSalesCountTotal | Sales.java:121-125 | The per-product counts add up to the number of sales |
| Sales.CustomerPurchaseCount | Sales.java:127-131 | A customer id is a key exactly when some sale carries it; its value is the number of sales with that id, at least 1 |
| Sales.CustomerPurchaseCountTotal | Sales.java:127-131 | The per-customer counts add up to the number of sales |
| Sales.CustomerSpending | Sales.java:63-81 | The loop of `merge` calls builds exactly the grouped spending map `Spending` |
| Sales.SpendingKeys | Sales.java:63-81 | The spending map has an entry for exactly the customer ids that occur in some sale |
| Sales.SpendingAppend | Sales.java:66-78 | One more sale adds its price (0 if its product is missing) to its customer's entry, creating the entry if absent, and leaves every other entry unchanged |
| Sales.SpendingMissingProduct | Sales.java:68-76 | A sale of a missing product adds its customer as a key (with 0 if new) and changes no existing amount |
| Sales.MonthlySalesTrends | Sales.java:103-119 | When every sale's product exists, the loop builds exactly the grouped monthly map `MonthlyTrends` |
| Sales.MonthlyTrendsKeys | Sales.java:107-115 | There is a bucket for exactly the months in which some sale was made |
| Sales.MonthlyTrendsIgnoreYear | Sales.java:109 | Moving one sale to another year leaves the whole monthly map unchanged: buckets are keyed by month only |
| Sales.TopProductIdsSpec | Sales.java:29-45 | Best sellers: min(5, number of distinct products sold) distinct sold ids, in non-increasing count order, with no unlisted product sold more often than a listed one |
| Sales.UnpopularProductIdsSpec | Sales.java:47-61 | Worst sellers: min(5, number of distinct products sold) distinct sold ids, in non-decreasing count order, with no unlisted product sold less often than a listed one |
| Sales.Lookups | Sales.java:41 | Each position of the list is `None` exactly when no product has that id; otherwise it is the first catalogue entry with that id |
| Sales.TopProducts | Sales.java:29-45 | Same length as the selected ids; `None` exactly where no product has the id; a listed product is the first catalogue entry with its id, which was sold; listed products run by non-increasing sale count; no sold product left off the list was sold more often than a listed one |
| Sales.UnpopularProducts | Sales.java:47-61 | Same length as the selected ids; `None` exactly where no product has the id; a listed product is the first catalogue entry with its id, which was sold; listed products run by non-decreasing sale count; no sold product left off the list was sold less often than a listed one |
| Sales.FindCustomersMembers | Sales.java:92-97 | A customer appears in the result exactly when some id's lookup finds it; ids with no customer record are dropped |
| Sales.FindCustomersRanked | Sales.java:90-97 | Dropping unmatched ids keeps the found customers in the ranked order of their ids |
| Sales.RankedCustomers | Sales.java:90-98 | Looking up ids ranked by descending spending drops unmatched ids, keeps exactly the first records of the ids at or above the threshold, and keeps their order |
| Sales.TopCustomers | Sales.java:83-101 | A customer is listed exactly when its spending is at least the threshold and it is the first customer record with its id; no customer id is listed twice; the list is ordered by non-increasing spending |
| Sales.FindCustomersDistinct | Sales.java:87-97 | Looking up distinct ids finds customers with distinct ids, so no customer is listed twice |
| Sales.TopCustomersMonotone | Sales.java:88 | Raising the threshold never adds a customer to the result |
| Grouping.GroupSnoc | Sales.java:76 | Grouping one more (key, amount) entry is `merge` with sum: the key's entry grows by the amount or is created with it, and nothing else changes |
| Grouping.GroupTotal | Sales.java:76 | Grouping preserves the total: the values of the grouped map sum to the sum of all entry amounts |
| Grouping.Tally | Sales.java:30-32 | The count map has exactly the keys that occur, each mapped to its number of occurrences, at least 1 |
| Grouping.TallyTotal | Sales.java:30-32 | The counts add up to the number of counted keys |
| Ranking.Sort | Sales.java:37 | The result is a permutation of its input and ordered by score in the requested direction |
| Ranking.SelectSpec | Sales.java:37-39 | Sorting then limiting to n gives min(n, size) distinct input ids, ordered by score, with no omitted id ranking strictly ahead of a kept one |
| Ranking.AtLeast | Sales.java:88 | An id is kept exactly when it is in the input and its score is at least the threshold, and no id is kept more often than it occurs (`multiset(r) <= multiset(s)`) |

## Left out

- `Main` (the console menu), `ReportGenerator` (report text and files) and the CSV loaders: they do I/O and are not part of this model. The engine receives its three lists already built.
- Logging (`logger.info` in `getTotalSalesAmount`): it has no effect on results.
- Floating point: prices, sums and the threshold are `double` in the source and unbounded integers here. Rounding and the order of accumulation are not modelled; the sums here are exact.
- Integer widths: ids are Java `int` and counts are `long`. Both are unbounded here; overflow is not modelled.
- Month names: the source keys the trend map by the short month name in the Russian locale. Here the key is the month number wrapped in `MonthLabel`, so the text is not modelled. Distinct months still give distinct keys, and the year is ignored, as in the source.
- Sub-second parts of a timestamp: not modelled, because no query reads them.
- HashMap iteration order: not modelled. It is the `order` parameter of `TopProductIds`, `UnpopularProductIds` and `TopCustomers`, which may be any listing of the map's keys without duplicates.
- Aliasing: the constructor keeps references to the caller's lists, so a later change by the caller would show in the queries. The engine here owns its sequences, so this is not modelled.
- TotalSalesAmount: requires every sale's product to exist, because `getTotalSalesAmount` (Sales.java:24) throws a `NullPointerException` on a missing product. `getCustomerSpending` treats a missing product as 0 (`orElse(0.0)`, Sales.java:74); `getTotalSalesAmount` is followed as written here. The zero-default total is `Revenue` (see Findings).
- MonthlySalesTrends: requires every sale's product to exist, for the same reason. The function `MonthlyTrends` is the zero-default version.
- TopCustomersMonotone: states only that the higher-threshold list has no member the lower-threshold list lacks. It does not state that it is an ordered subsequence of it.

## Findings

| source | as written | input that shows it | evidently intended | confidence | as-written member | corrected member |
|---|---|---|---|---|---|---|
| Sales.java:24 | `getTotalSalesAmount` dereferences `getProductById(...)` without a null check | one sale whose product id is missing from the product list: `getProductById` returns `null` and `.getPrice()` throws | a missing product contributes 0, as in `getCustomerSpending` (`orElse(0.0)`) | medium, not executed | Sales.TotalSalesAmount, Sales.DanglingSaleExample | Sales.Revenue, Sales.RevenueIsSpendingSum |
| Sales.java:111-113 | `getMonthlySalesTrends` calls `product.getPrice()` on a lookup that may be `null` | the same dangling sale, whatever its date | the sale adds 0 to its month's bucket | medium, not executed | Sales.MonthlySalesTrends, Sales.DanglingSaleExample | Sales.MonthlyTrends, Sales.RevenueIsMonthlySum |
