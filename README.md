# Retail inventory: a Dafny model

This project models the `Inventory` class of a single-user retail management
program (`mini7.cpp`). The inventory is an ordered list of products. Each
product has a name, an id, a quantity on hand, a count of units sold, and a
cost and sell price that nothing uses. Operations:

- `AddProduct` appends a product. It never checks for a duplicate id.
- `UpdateProductQuantity` adds a signed delta to the quantity of the first
  product with the given id. There is no floor at zero.
- `SellProduct` moves units from stock to sold on the first match. It does
  this only when the match has enough stock.
- `DisplayInventory` lists every product in insertion order.
- `PredictStockout` estimates how many days the first match has left, from
  its sales over an assumed 30-day month.

Module `Catalog` (`catalog.dfy`) holds the values:

- the `Product` record;
- the console `Message`s the operations report;
- `FirstIndex`, the first-match lookup every operation uses;
- one specification function per operation on `seq<Product>`: `Restocked`,
  `AfterSale`/`SaleReport`, `Listing` and `Forecast`/`Estimate`;
- the lemmas about them.

Module `RetailInventory` (`inventory.dfy`) holds the class `Inventory`:

- a `products: seq<Product>` field that the methods update in place, with the
  same scan loops, `found` flags and `break`s as the source;
- a ghost `log` holding the lines written to the activity log file.

Each method's `ensures` ties the new list, the reported messages and the new
log to the specification functions applied to the old list.
`WidgetScenario` states a worked example whose asserted outcomes the
verifier proves: add a widget, list, sell 4, list twice, try to sell 100, predict,
and adjust an unknown id in an empty inventory.

Decisions where the code and its intended behaviour differ:

- The sale amount is modelled as written: there is no `requires n >= 0`. The
  code does not check the amount (mini7.cpp:62). A negative amount passes the
  stock test, raises the quantity and lowers `ordersSold`
  (`NegativeSaleLowersOrdersSold`). `ordersSold` counts units sold, so one
  would expect it never to decrease. It never decreases only for
  non-negative amounts (`SaleOrdersSoldMonotone`).
- Both halves of what the code reports on a refused sale are recorded.
  `found` is set only on success, so an insufficient-stock sale prints the
  insufficient-stock message and then "Product not found." as well. A user
  would expect only the insufficient-stock message.
- A stockout prediction with no recorded sales gives the explicit outcome
  `NoSalesHistory`. The code divides by a zero rate there and casts the
  infinite or undefined quotient to `int`, which is undefined behaviour.
- Otherwise the day count is computed exactly, as `CeilDiv(30 * quantity,
  ordersSold)`. `EstimateMatchesSourceFormula` proves that this equals the
  ceiling of the code's formula `quantity / (ordersSold / 30)` taken over the
  reals. In the program a negative `ordersSold` can only come from a negative
  sale, since the only constructor sets it to 0 and only the sale writes it.
  The model's `AddProduct` accepts any `Product` record, so there it can also
  come from the record added. Either way the code handles it through the same
  formula, and so does the model.

## Model

| member | source | states |
|---|---|---|
| Catalog.NewProduct | mini7.cpp:17-18 | a new product keeps the given name, id, quantity, cost and sell price, and starts with zero units sold |
| Catalog.FirstIndex | mini7.cpp:44-45 | the lookup finds the first position whose id matches, with no match before it; it finds none exactly when no product has that id |
| Catalog.FirstIndexSameIds | mini7.cpp:44-45 | two lists with the same ids in the same order give the same first match, so changing quantities never moves later lookups |
| Catalog.FirstIndexAppend | mini7.cpp:36-37 | appending a product keeps an existing first match; the new product becomes the first match only for an id not yet present |
| Catalog.Restocked | mini7.cpp:44-49 | defines the adjustment: the first product with the id has delta added to its quantity; with no such product the list is returned as it is; the length never changes |
| Catalog.RestockFrame | mini7.cpp:42-51 | with the id present, only the first match's quantity changes, to old + delta, and every other field and product stays; with the id absent the list is unchanged |
| Catalog.RestockInverse | mini7.cpp:46 | adjusting by delta and then by -delta restores the list exactly |
| Catalog.RestockShadowsLaterDuplicate | mini7.cpp:36-49 | once an id is present, a duplicate added later is never adjusted; the earlier product is |
| Catalog.RestockCanGoNegative | mini7.cpp:46 | an adjustment has no floor: a negative delta can take a quantity below zero |
| Catalog.RestockChangesUnits | mini7.cpp:46 | an adjustment changes the catalog's total units by exactly delta when the id is present, and by nothing when it is absent |
| Catalog.CanSell | mini7.cpp:60-62 | defines when a sale goes through: some product has the id and the first such product has at least n in stock |
| Catalog.AfterSale | mini7.cpp:60-64 | defines the list after a sale: when the sale goes through, the first match loses n units of stock and gains n units sold; otherwise the list is returned as it is; the length never changes |
| Catalog.SaleReport | mini7.cpp:65-75 | defines what a sale prints: one or two messages, and the last one is "not found" exactly when the sale does not go through |
| Catalog.SaleFrame | mini7.cpp:60-72 | a sale that goes through lowers the first match's quantity by n and raises its ordersSold by n, and changes nothing else; a refused sale, or one for an absent id, changes nothing |
| Catalog.SaleReportCases | mini7.cpp:58-75 | a sale reports "sold" exactly when the first match has enough stock, only "not found" exactly when the id is absent, and "insufficient" followed by "not found" exactly when the first match lacks stock |
| Catalog.SaleShadowsLaterDuplicate | mini7.cpp:36-75 | once an id is present, for every list, amount and later duplicate: the sale acts on the earlier product exactly as if the duplicate were absent, and reports the same messages; so a refused sale stays refused even when the later duplicate has enough stock |
| Catalog.SaleKeepsUnitsPerProduct | mini7.cpp:63-64 | every sale keeps quantity + ordersSold of every product, the sold one included |
| Catalog.SaleOrdersSoldMonotone | mini7.cpp:63-64 | for a non-negative amount, no product's ordersSold decreases |
| Catalog.NegativeSaleLowersOrdersSold | mini7.cpp:62-64 | the amount is unchecked: selling -3 units of a product with 5 in stock leaves it with 8 in stock and -3 units sold |
| Catalog.SalePreservesNonNegativeStock | mini7.cpp:62-63 | if no quantity is negative before a sale, none is negative after it, whatever the amount requested |
| Catalog.SaleConservesUnits | mini7.cpp:63-64 | a sale leaves the catalog's total units (on hand plus sold) unchanged |
| Catalog.Listing | mini7.cpp:80-81 | the listing has one entry per product, in catalog order, giving its name, id, quantity and ordersSold |
| Catalog.ListingAppend | mini7.cpp:36-37 | listing a catalog extended by new products gives the old listing followed by the new products' entries in the order added |
| Catalog.CeilDiv | mini7.cpp:90 | the result is the least integer at or above a / b, for either sign of b |
| Catalog.CeilDivIsCeiling | mini7.cpp:90 | the integer ceiling equals the ceiling of the exact real quotient |
| Catalog.SourceDaysExact | mini7.cpp:89-90 | quantity / (ordersSold / 30) equals 30 * quantity / ordersSold over the reals |
| Catalog.Estimate | mini7.cpp:89-95 | no recorded sales gives "no sales history"; with ordersSold > 0 the estimate is a positive day count exactly when quantity > 0, and the count is the ceiling of 30 * quantity / ordersSold |
| Catalog.EstimateMatchesSourceFormula | mini7.cpp:89-95 | with sales recorded, the estimate is "runs out in k days" for k the ceiling of quantity / (ordersSold / 30) when k > 0, and "already out of stock" otherwise |
| Catalog.Forecast | mini7.cpp:87-99 | defines the prediction: the estimate for the first product with the id; "not found" exactly when no product has the id |
| RetailInventory.RestockLog | mini7.cpp:47 | an adjustment writes one log line when the id is present and none when it is absent |
| RetailInventory.Inventory.constructor | mini7.cpp:27-34 | a new inventory is empty; its log holds the header line exactly when the log file opened |
| RetailInventory.Inventory.AddProduct | mini7.cpp:36-40 | the product is appended after all earlier ones, which stay unchanged; the result is always true; the "added" line is logged when the log is open |
| RetailInventory.Inventory.UpdateProductQuantity | mini7.cpp:42-55 | the new list is the old one with delta added to the first match's quantity; "not found" is reported exactly when the id is absent; the "updated" line with the new quantity is logged only when the id is present |
| RetailInventory.Inventory.SellProduct | mini7.cpp:58-76 | the new list and the reported messages are those of the sale specification on the old list; nothing is logged |
| RetailInventory.Inventory.DisplayInventory | mini7.cpp:78-83 | the entries returned are the listing of the current products; the method changes nothing, so two calls in a row return the same entries |
| RetailInventory.Inventory.PredictStockout | mini7.cpp:86-100 | the message is the estimate for the first product with the id, or "not found" when none has it; the method changes nothing |

## Left out

- Console output is not modelled as text. Each operation returns the sequence of `Message` values it would print; the exact wording, the "Inventory:" heading and writing to standard output versus standard error are left out.
- The activity log is modelled as a ghost sequence of abstract `LogLine`s. Its text format, file handling and closing in the destructor (mini7.cpp:102-104) are file I/O and are left out.
- The constructor's "Error opening log file." message is left out. Whether the file opens is the constructor's `logOpened` parameter.
- The menu loop in `main` (mini7.cpp:107-195) is left out: it only reads input and dispatches. Malformed numeric input is left out with it.
- Integers are unbounded. The source's `int` is 32 bits, and overflow in `quantity += delta`, in a sale, or in the cast of a very large day count is undefined behaviour there.
- Floating point is not modelled. The estimate uses exact arithmetic, and it is proved equal to the ceiling of the source's formula evaluated exactly over the reals. In the source both divisions, `ordersSold / 30.0` and `quantity / averageSalesRate`, round to a double, and that rounding can move the ceiling up by one day. For example, with quantity = ordersSold = 11, `11 / (11 / 30.0)` is 30.000000000000004 in doubles, so the source prints 31 days where `Estimate` gives 30. The model does not capture these cases.
- Catalog.Estimate: with ordersSold == 0 it returns `NoSalesHistory`, where the source casts an infinite or undefined quotient to `int`, which is undefined behaviour.
- `cost` and `sell` are kept as `real` fields and used by nothing, as in the source.
