# Point-of-sale core in Dafny

A Dafny model of the bookkeeping core of a small WinForms/SQLite
point-of-sale and inventory application:

- the **cart engine** of the sell screen: adding scanned products, the undo
  history, line subtotals and the cart total, editing a line's quantity,
  and checkout validation with its discount/change rule;
- the **stock ledger** operations of `DatabaseHelper`:
  - the all-or-nothing stock check and decrement of `FinalizeTransactionAsync`;
  - the guarded decrement and the flexible quantity/price update;
  - the normalising upsert and loading of products;
  - the product image file name;
  - the low-stock and inventory-value aggregates;
- the **receipt arithmetic** of `ReceiptGenerator`: item amounts, subtotal,
  VAT, the discounted total, the discount row and the payment line;
- the **catalogue maintenance** rules of the products screen: validating and
  adding a product, refilling stock and repricing, and the search filter.

The database is a value. The Products table is a `map` from stored barcode
to product; Transactions and Sales are sequences of rows. A rolled-back
transaction returns the store it was given. Money is Dafny's exact `real`,
standing for C#'s `decimal`. Text boxes that must parse are given to the
model already parsed: `Option`, or `Entry` = blank / parsed / invalid.
Barcodes are matched as the code matches them: trimmed and lower-cased,
modelled by `Text.Normalize`.

Modules, one file each:

- `wrappers.dfy`: `Option`, `Result`.
- `text.dfy`: ASCII `Trim`, `ToLower`, `ToUpper`, `Contains` and friends, with specification lemmas.
- `products.dfy`: `Product`, the Products table and its operations.
- `ledger.dfy`: `FinalizeTransactionAsync`.
- `cart.dfy`: cart, undo history and product cache.
- `receipt.dfy`: receipt arithmetic.
- `checkout.dfy`: the `Checkout` handler.
- `maintenance.dfy`: the products screen.

## Model

| member | source | states |
|---|---|---|
| `Cart.SubTotal` | Controls/SellControl.cs:29 | a line's subtotal is price × quantity: zero with no units or no price, never negative for a non-negative line, positive for a priced line with units |
| `Cart.Total` | Controls/SellControl.cs:713-717 | the cart total is zero for the empty cart, never negative for non-negative lines, and zero for such a cart only when every line's subtotal is zero |
| `Cart.AddToCart` | Controls/SellControl.cs:671-689 | a product whose barcode matches a line (trimmed, case-insensitive) raises only that line's quantity by `qty`, keeping its barcode, name and price; otherwise exactly one line is appended, holding the product's barcode, name and price and `qty`; every other line is unchanged; at most one line per barcode and no empty line are both preserved |
| `Cart.AddToCartTotal` | Controls/SellControl.cs:713-717 | adding `qty` units raises the cart total by `qty` × the price the line is charged at |
| `Cart.AddToCartQuantities` | Controls/SellControl.cs:671-689 | adding raises the units held for the product's barcode by exactly `qty` and no other barcode's units |
| `Cart.TotalAppend` | Controls/SellControl.cs:713-717 | the cart total is additive over concatenation, so it is the sum of all line subtotals |
| `Cart.TotalUpdate` | Controls/SellControl.cs:29 | replacing one line changes the total by the difference of the two line subtotals (price × quantity) |
| `Cart.TotalRemove` | Controls/SellControl.cs:704-705 | dropping a line lowers the total by that line's subtotal |
| `Cart.SellProduct` | Controls/SellControl.cs:598-669 | a blank barcode, an unknown product, stock ≤ 0, stock < qty and qty < 1 are each refused, in that order, exactly under their condition, with cart and history unchanged; otherwise the product is added and one history entry is pushed |
| `Cart.TakeOff` | Controls/SellControl.cs:701-708 | takes units off the first matching line, which keeps its place when units are left and is dropped at ≤ 0; the lines before and after it keep their order and positions; a missing line leaves the cart as it is; uniqueness and positivity are kept |
| `Cart.UndoSale` | Controls/SellControl.cs:691-711 | an empty history changes nothing; otherwise exactly the top entry is popped and its quantity is taken off its line |
| `Cart.UndoQuantities` | Controls/SellControl.cs:691-711 | undo lowers the undone barcode's units by the entry's quantity (to none at most) and leaves every other barcode's units alone |
| `Cart.TakeOffQuantities` | Controls/SellControl.cs:701-708 | in a cart with one line per barcode, taking `q` units off a barcode leaves it with `q` fewer units (never negative) and every other barcode unchanged |
| `Cart.AddThenTakeOff` | Controls/SellControl.cs:671-711 | taking off the units just added restores the cart exactly |
| `Cart.SellThenUndo` | Controls/SellControl.cs:643-651 | a successful sell followed by undo restores both cart and history |
| `Cart.EditQuantity` | Controls/SellControl.cs:589-596 | after an edit the edited line holds at least one unit (a typed quantity ≥ 1 is kept); nothing else changes |
| `Cart.BuildCache` | Controls/SellControl.cs:471-484 | the cache holds exactly the normalised barcodes of the loaded products, each mapped to the first product loaded under it |
| `Cart.LoadedCacheServesFirstRow` | Controls/SellControl.cs:476-483 | over a table scan, a typed barcode is in the cache exactly when some row's barcode normalises to it, and it is served from the first such row as loaded |
| `Cart.QuantityOfUnique` | Controls/SellControl.cs:673 | with one line per barcode, a barcode's units are the quantity of the line the first-match search finds |
| `Checkout.Settle` | Controls/SellControl.cs:772-786 | discount and change are both non-negative, never both positive, and total − discount + change = paid |
| `Checkout.SettleDetermined` | Controls/SellControl.cs:772-786 | those three properties admit only the settlement the handler computes |
| `Checkout.Items` | Controls/SellControl.cs:799-805 | one sale item per cart line, in order, with the line's barcode, name, quantity and price |
| `Checkout.Commit` | Controls/SellControl.cs:813-816 | the order is recorded exactly when the cart is non-empty and the stock check passes; then under the next id, with the order's amounts, the decremented stock and one Sales row per line; otherwise nothing changes, and the error is `NoItems` for an empty cart or else the stock check's refusal |
| `Checkout.Prepare` | Controls/SellControl.cs:751-794 | an empty cart, an unparsable amount, a negative amount and a non-"Cash" method without a reference are each refused exactly under their condition; an accepted order carries the cart total, the settlement and the trimmed reference and customer |
| `Checkout.Checkout` | Controls/SellControl.cs:749-866 | a refused checkout changes neither session nor store; it succeeds exactly when the stock check passes, and a validated order that fails is declined with the stock check's refusal; a success records one header with the order's amounts and one row per line, and empties cart and history; no outcome both records a sale and keeps the cart |
| `Checkout.CheckoutAsWritten` | Controls/SellControl.cs:808-876 | the handler as written: any failure keeps cart and history; a validated order refused before the receipt is declined with the stock check's refusal; a receipt failure comes only after the stock check passed, with the decremented stock and one more header already committed; a success records the same header, stock and Sales rows as the corrected handler |
| `Checkout.CheckoutStockRule` | DatabaseHelper.cs:618-643 | with one line per barcode, checkout commits exactly when every line's product exists with stock > 0 and ≥ the line's quantity |
| `Checkout.CheckoutRecordsCart` | DatabaseHelper.cs:646-687 | a completed checkout's header total is the cart total, its Sales rows add up to it, and total − discount + change = paid |
| `Checkout.RowsTotalOfCart` | DatabaseHelper.cs:670-687 | the Sales rows written for a cart add up to the cart total |
| `Checkout.ReceiptTotalIsMin` | Helpers/ReceiptGenerator.cs:124-126 | with VAT 0 and the checkout's discount, the printed total is the smaller of the cart total and the amount paid |
| `Checkout.ReceiptFailureDoubleSells` | Controls/SellControl.cs:813-876 | with the handler as written, a receipt failure after commit keeps the cart, and retrying sells it a second time (stock 10 → 8 → 6, two transactions) |
| `Checkout.CartCanExceedStock` | Controls/SellControl.cs:631-641 | two adds of 3 from a stock of 5 both enter the cart, because only the added quantity is checked; checkout then refuses the line of 6 and records nothing |
| `Ledger.CheckAndDecrement` | DatabaseHelper.cs:618-643 | on success each product's stock drops by exactly what the items request of it, untouched products are unchanged and no item's stock ends negative; on failure the loop stopped at the first item that is not admissible against the running stock, and the error is that item's own: "not found" with its name for a missing barcode, "out of stock" with the requested quantity when the running stock is ≤ 0, "only N available" with N the running stock and the requested quantity otherwise |
| `Ledger.CheckSucceedsIffAdmissible` | DatabaseHelper.cs:618-643 | the stock loop succeeds exactly when every item, in order, finds its barcode and running stock > 0 and ≥ its quantity |
| `Ledger.DistinctCheck` | DatabaseHelper.cs:627-632 | with distinct barcodes the check passes exactly when every item's stored stock is > 0 and ≥ its quantity |
| `Ledger.SaleRows` | DatabaseHelper.cs:670-687 | one Sales row per item, in order, carrying the transaction id and each row's total equal to unit price × quantity |
| `Ledger.FinalizeTransaction` | DatabaseHelper.cs:595-697 | no items, a missing product, stock ≤ 0 or stock short each roll back (store unchanged); a failed stock check is reported with the stock check's own error; success appends exactly one header with the given amounts and one row per item, and decrements stock |
| `Ledger.FinalizeKeepsStock` | DatabaseHelper.cs:618-643 | finalising keeps the table well formed and never drives a non-negative stock below zero |
| `Ledger.SequentialSalesCannotOversell` | DatabaseHelper.cs:631-635 | with stock 5, a sale of 3 commits and a following sale of 4 rolls back reporting 2 available |
| `ProductTable.SaveProduct` | DatabaseHelper.cs:90-114 | the product is stored under its trimmed lower-cased barcode with name and category trimmed, replacing any row there; every other row is kept; well-formedness is preserved |
| `ProductTable.SaveProductSize` | DatabaseHelper.cs:98-100 | a new normalised barcode adds exactly one row; an existing one replaces it |
| `ProductTable.LoadRow` | DatabaseHelper.cs:130-138 | a loaded row's barcode is its normalised barcode, a key that normalises to itself; name, category and image path neither start nor end with whitespace and trim like the stored text; price and quantity are as stored |
| `ProductTable.LoadRowIdempotent` | DatabaseHelper.cs:130-138 | loading an already loaded row changes nothing |
| `ProductTable.SaveThenLoad` | DatabaseHelper.cs:90-110 | a saved product loads back exactly as the product itself would load |
| `ProductTable.LoadAllProducts` | DatabaseHelper.cs:116-145 | one product per row, in order, with lower-cased trimmed barcode, trimmed name, category and image path, and the price and quantity as stored |
| `ProductTable.Extension` | DatabaseHelper.cs:39 | the extension is empty or a '.' followed by at least one character, with no further '.' or separator, taken from the path's end |
| `ProductTable.ImageFileName` | DatabaseHelper.cs:34-44 | the name is "product_", then only the letters and digits of the barcode, then the source extension |
| `ProductTable.ImageFileNameHasNoSeparatorFromBarcode` | DatabaseHelper.cs:40-41 | no barcode can put a directory separator into the image file name |
| `ProductTable.UpdateQuantityAtomic` | DatabaseHelper.cs:146-178 | succeeds exactly when the barcode exists with quantity ≥ qty, and then subtracts qty from that row only; a refusal leaves the table unchanged |
| `ProductTable.UpdateProductFlexible` | DatabaseHelper.cs:402-444 | fails exactly on an unknown normalised barcode; the new quantity is newQuantity if given, else current + change (0 when absent), clamped at 0, so a negative stored stock becomes 0 even with no change; the price is newPrice if given; nothing else changes |
| `ProductTable.LowStockCount` | DatabaseHelper.cs:506-513 | the count is the number of products with quantity ≤ the threshold, at most the table size |
| `ProductTable.DefaultThresholdInclusive` | DatabaseHelper.cs:506-510 | under the default threshold 5 a product holding exactly 5 units counts as low and one holding 6 does not |
| `ProductTable.LowStockMonotone` | DatabaseHelper.cs:506-513 | a higher threshold never gives a lower count |
| `ProductTable.DecrementKeepsLowStock` | DatabaseHelper.cs:146-178 | a guarded decrement never lowers the low-stock count |
| `ProductTable.InventoryValue` | DatabaseHelper.cs:497-504 | the inventory value of an empty table is 0 |
| `ProductTable.InventoryValueRemove` | DatabaseHelper.cs:497-504 | the inventory value is price × quantity of any one row plus the value of the rest, whatever the summation order |
| `ProductTable.InventoryValueReplace` | DatabaseHelper.cs:497-504 | replacing a row changes the inventory value by the difference of the two rows' price × quantity |
| `ProductTable.DecrementInventoryValue` | DatabaseHelper.cs:146-178 | a successful guarded decrement changes the inventory value only through the decremented row; a refused one leaves it as it was |
| `ProductTable.RowValueDecrement` | DatabaseHelper.cs:501 | lowering a row's quantity by d lowers its value by price × d |
| `ProductTable.AmountAdd` | Controls/SellControl.cs:29 | price × (a + b) = price × a + price × b, so merging units into a line adds their amount |
| `Receipt.ComputeSubtotal` | Helpers/ReceiptGenerator.cs:97-118 | the item loop's running sum is the subtotal of all items in order |
| `Receipt.Summarize` | Helpers/ReceiptGenerator.cs:122-153 | VAT = subtotal × VAT rate; total = subtotal + VAT − discount; with VAT rate 0 the VAT is 0; a discount row appears exactly when the discount is positive |
| `Receipt.PaymentText` | Helpers/ReceiptGenerator.cs:165-169 | "Payment Method: " then the method upper-cased; " (Ref: r)" follows exactly when the method is not "Cash" in any letter case and the reference is not blank |
| `Receipt.CashPrintsNoReference` | Helpers/ReceiptGenerator.cs:166 | "cash" in lower case still prints no reference |
| `Receipt.CardPrintsReference` | Helpers/ReceiptGenerator.cs:166-168 | a card payment prints its reference |
| `Receipt.ItemTotal` | Helpers/ReceiptGenerator.cs:15 | an item's amount is quantity × price: zero with no units or no price, never negative for a non-negative item, positive for a priced item with units |
| `Receipt.FromCart` | Controls/SellControl.cs:818-823 | one receipt item per cart line with its name, quantity and price |
| `Receipt.SubtotalOfCart` | Controls/SellControl.cs:818-823 | the receipt's subtotal equals the cart total |
| `Maintenance.ValidateProduct` | Controls/ProductControl.cs:569-611 | a blank barcode, an exact trimmed duplicate, an invalid price, an invalid quantity and no category are each refused exactly under their condition, in that order |
| `Maintenance.AddProductAsWritten` | Controls/ProductControl.cs:453-488 | a validated form is upserted and appended to the list |
| `Maintenance.MixedCaseDuplicateOverwrites` | Controls/ProductControl.cs:579 | with "abc" stored, adding "ABC" passes validation and replaces the stored product and its stock |
| `Maintenance.ValidateProductChecked` | Controls/ProductControl.cs:579 | the duplicate check on normalised barcodes refuses exactly the barcodes already listed once trimmed and lower-cased |
| `Maintenance.AddProduct` | Controls/ProductControl.cs:453-488 | adding with the normalised duplicate check; fails exactly when that validation fails |
| `Maintenance.AcceptedKeyIsNew` | DatabaseHelper.cs:92 | an accepted barcode normalises to a key the table does not hold |
| `Maintenance.AddProductNeverOverwrites` | DatabaseHelper.cs:98-100 | with the normalised check, an accepted product never replaces a stored one and adds exactly one row |
| `Maintenance.AddProductKeepsCovers` | Controls/ProductControl.cs:468-470 | after an add, every stored product is still listed |
| `Maintenance.ApplyRefill` | Controls/ProductControl.cs:799-816 | the refill update raises the stored quantity by the units added (for non-negative stock) and never lowers it, sets the typed price or keeps the old one, and shows old quantity + units |
| `Maintenance.Refill` | Controls/ProductControl.cs:757-829 | a blank barcode, an unknown product, an invalid quantity and an invalid price are each refused exactly under their condition; a success touches only that product and never lowers its stock |
| `Maintenance.FilterBy` | Controls/ProductControl.cs:639-642 | a listed product is kept exactly when its lower-cased name or barcode contains the query |
| `Maintenance.FilterByAppend` | Controls/ProductControl.cs:639-642 | filtering keeps the list's order |
| `Maintenance.Search` | Controls/ProductControl.cs:622-651 | a blank search shows the full list; otherwise the products matching the trimmed, lower-cased text |
| `Maintenance.SearchFinds` | Controls/ProductControl.cs:629-642 | a listed product is found exactly when the normalised search text occurs in its lower-cased name or barcode |
| `Maintenance.SearchFindsOwnBarcode` | Controls/ProductControl.cs:629-642 | a search for a product's own barcode, in any letter case and padded with spaces, finds it |
| `Text.NormalizeSpec` | Controls/SellControl.cs:607-611 | a normalised barcode has no upper-case letter, is no longer than the input, and is empty exactly when the input is blank |
| `Text.NormalizeIdempotent` | DatabaseHelper.cs:92 | normalising twice is normalising once, so stored keys normalise to themselves |
| `Text.EqualsIgnoreCaseIffLower` | Helpers/ReceiptGenerator.cs:166 | ordinal case-insensitive equality agrees with comparing lower-cased forms |
| `Text.ContainsSpec` | Controls/ProductControl.cs:641 | `Contains` holds exactly when the needle occurs at some position |
| `Text.KeepLettersAndDigitsSpec` | DatabaseHelper.cs:40 | the filtered barcode holds exactly the letters and digits of the input, in order |

## Left out

- Number parsing (`decimal.TryParse`, `int.TryParse`, comma stripping) is not modelled. Each text box arrives already parsed.
- `Text.IsLetterOrDigit` is ASCII only. `char.IsLetterOrDigit` also keeps non-ASCII letters and digits such as 'é' or '٣', so `ProductTable.ImageFileName` differs from the source on barcodes holding them.
- Case mapping and whitespace are ASCII only. Culture-specific and Unicode behaviour of `Trim`, `ToLower` and `ToUpper` is not modelled.
- Money is exact and unbounded. The `decimal` range and the SQLite `REAL` column that stores prices are not modelled.
- Quantities are unbounded integers. 32-bit overflow of `int` quantities is not modelled.
- Connections, SQL text, `async`/`await`, message boxes and grid refreshes are not modelled.
- The `isProcessing` re-entrancy guard and concurrent terminals are left out. The code runs on one UI thread.
- The PDF layout is left out. Only the values printed are modelled.
- The time-based receipt file name and the transaction timestamp are left out. The timestamp is an opaque parameter.
- Shop information lookup and opening the receipt are left out. Their success is folded into `receiptWritten`.
- `Cart.SellProduct` does not model the cache reload on a miss. The cache is a parameter holding the products as they stand after any reload.
- `Cart.EditQuantity` requires a row index below the cart size. The grid only raises the event for existing rows.
- `Ledger.FinalizeTransaction` takes the new transaction id to be the number of headers + 1. This assumes an autoincrement key with no deleted transactions.
- `Maintenance.Refill` requires a well-formed table (every key normalised and equal to its row's barcode). That is what `SaveProduct` and the loader maintain.
- `Maintenance.ApplyRefill` states the stored quantity as old + units only for non-negative stock. For negative stock the database clamps at 0 while the in-memory copy does not.
- `ProductTable.DecrementInventoryValue` states the change through the row values. The price × qty drop is stated separately by `RowValueDecrement`, to keep the proof small.
- `ProductTable.InventoryValue` is a ghost function: the sum over a map has no fixed order, and SQL's `SUM` order is irrelevant to the result.
- The receipt's "Amount Paid" line is carried as the value `Summary.paid`; its text formatting is not modelled. The source's "Change" line is commented out, so no change is printed or modelled on the receipt.
- `Checkout.CheckoutAsWritten` folds every failure after the commit into one receipt failure. This covers shop-info lookup, folder creation, the PDF write and opening the file.

## Findings

| source | as written | input that shows it | evidently intended | confidence | as-written member | corrected member |
|---|---|---|---|---|---|---|
| Controls/ProductControl.cs:579 | the duplicate check compares the trimmed barcode exactly with listed barcodes, which the loader has lower-cased, so a mixed-case barcode passes and `SaveProduct` then replaces the stored product, stock included | "abc" stored, add "ABC" with quantity 1: the stored product becomes the new one with quantity 1 | compare normalised barcodes, so an existing product is refused as a duplicate | not executed; medium | `Maintenance.MixedCaseDuplicateOverwrites` | `Maintenance.AddProductNeverOverwrites` |
| Controls/SellControl.cs:813-876 | a failure after `FinalizeTransactionAsync` has committed, such as writing the receipt, lands in the same catch as a refused sale, so cart and history are kept | stock 10, cart of 2, receipt write fails, user retries: stock 6 and two transactions for one sale | clear the cart once the sale is committed, whatever happens to the receipt | not executed; medium | `Checkout.ReceiptFailureDoubleSells` | `Checkout.Checkout` |
