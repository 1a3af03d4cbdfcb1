/** The Products table and the DatabaseHelper operations on it: the
    normalising upsert, loading, the guarded decrement, the flexible
    quantity/price update, the product image file name and the dashboard
    aggregates. The SQLite table is a map from the stored barcode (its
    primary key) to the row; connections and SQL text are not modelled. */
module ProductTable {
  import opened Text
  import opened Wrappers

  /** Money is exact, like C#'s `decimal`. */
  type Money = real

  /** One catalogue entry (Models/Product.cs). */
  datatype Product = Product(
    barcode: string,
    name: string,
    price: Money,
    quantity: int,
    category: string,
    imagePath: string)

  /** The Products table, keyed by its `Barcode` primary-key column. */
  type Table = map<string, Product>

  /** Every row sits under its own barcode and that barcode is already
      trimmed and lower-cased. `SaveProduct` is the only path that inserts
      rows, and every update keeps keys and barcodes as they are. */
  predicate Valid(t: Table) {
    forall b :: b in t ==> Normalize(b) == b && t[b].barcode == b
  }

  /** The default threshold of `GetLowStockCount`. */
  const LowStockThreshold := 5

  /** `SaveProduct`: `INSERT OR REPLACE` under the trimmed, lower-cased
      barcode, with name and category trimmed. */
  function SaveProduct(t: Table, p: Product): (r: Table)
    ensures Normalize(p.barcode) in r
    ensures r[Normalize(p.barcode)].barcode == Normalize(p.barcode)
    ensures r[Normalize(p.barcode)].name == Trim(p.name)
    ensures r[Normalize(p.barcode)].category == Trim(p.category)
    ensures r[Normalize(p.barcode)].price == p.price
    ensures r[Normalize(p.barcode)].quantity == p.quantity
    ensures r[Normalize(p.barcode)].imagePath == p.imagePath
    ensures r.Keys == t.Keys + {Normalize(p.barcode)}
    ensures forall b :: b in t && b != Normalize(p.barcode) ==> r[b] == t[b]
    ensures Valid(t) ==> Valid(r)
  {
    var key := Normalize(p.barcode);
    NormalizeIdempotent(p.barcode);
    t[key := Product(key, Trim(p.name), p.price, p.quantity, Trim(p.category), p.imagePath)]
  }

  /** Replace semantics: saving two products whose barcodes normalise alike
      leaves one row, holding the values of the second. */
  lemma SaveTwiceKeepsLast(t: Table, p: Product, q: Product)
    requires Normalize(p.barcode) == Normalize(q.barcode)
    ensures SaveProduct(SaveProduct(t, p), q) == SaveProduct(t, q)
    ensures |SaveProduct(SaveProduct(t, p), q).Keys| == |SaveProduct(t, p).Keys|
  {
  }

  /** Saving a product whose barcode is new to the table adds exactly one
      row; saving one whose normalised barcode is present replaces it. */
  lemma SaveProductSize(t: Table, p: Product)
    ensures Normalize(p.barcode) in t ==> |SaveProduct(t, p)| == |t|
    ensures Normalize(p.barcode) !in t ==> |SaveProduct(t, p)| == |t| + 1
  {
    var r := SaveProduct(t, p);
    if Normalize(p.barcode) in t {
      assert r.Keys == t.Keys;
    } else {
      assert r.Keys == t.Keys + {Normalize(p.barcode)};
    }
  }

  /** One row as `LoadAllProducts` materialises it: the barcode is a key
      and the text columns carry no surrounding whitespace. */
  function LoadRow(p: Product): (r: Product)
    ensures r.barcode == Normalize(p.barcode) && Normalize(r.barcode) == r.barcode
    ensures Trimmed(r.name) && Trimmed(r.category) && Trimmed(r.imagePath)
    ensures Trim(r.name) == Trim(p.name) && Trim(r.category) == Trim(p.category)
    ensures Trim(r.imagePath) == Trim(p.imagePath)
    ensures r.price == p.price && r.quantity == p.quantity
  {
    TrimSpec(p.name); TrimSpec(p.category); TrimSpec(p.imagePath);
    TrimTwice(p.name); TrimTwice(p.category); TrimTwice(p.imagePath);
    NormalizeIdempotent(p.barcode);
    Product(Normalize(p.barcode), Trim(p.name), p.price, p.quantity, Trim(p.category), Trim(p.imagePath))
  }

  /** Loading a loaded row changes nothing. */
  lemma LoadRowIdempotent(p: Product)
    ensures LoadRow(LoadRow(p)) == LoadRow(p)
  {
    var r := LoadRow(p);
    TrimOfTrimmed(r.name);
    TrimOfTrimmed(r.category);
    TrimOfTrimmed(r.imagePath);
  }

  /** A saved product loads back as the product itself would load: the
      trimming and lower-casing of `SaveProduct` lose nothing that loading
      keeps. */
  lemma SaveThenLoad(t: Table, p: Product)
    ensures LoadRow(SaveProduct(t, p)[Normalize(p.barcode)]) == LoadRow(p)
  {
    var q := SaveProduct(t, p)[Normalize(p.barcode)];
    var a := LoadRow(q);
    var b := LoadRow(p);
    assert a.name == b.name && a.category == b.category;
  }

  /** `LoadAllProducts`: the rows of a table scan, in scan order, with the
      barcode trimmed and lower-cased and the text columns trimmed. */
  function LoadAllProducts(rows: seq<Product>): (r: seq<Product>)
    ensures |r| == |rows|
    ensures forall i :: 0 <= i < |r| ==> Normalize(r[i].barcode) == r[i].barcode
    ensures forall i :: 0 <= i < |r| ==> r[i].barcode == Normalize(rows[i].barcode)
    ensures forall i :: 0 <= i < |r| ==>
      r[i].price == rows[i].price && r[i].quantity == rows[i].quantity && r[i].name == Trim(rows[i].name)
    ensures forall i :: 0 <= i < |r| ==>
      r[i].category == Trim(rows[i].category) && r[i].imagePath == Trim(rows[i].imagePath)
  {
    if rows == [] then []
    else
      NormalizeIdempotent(rows[0].barcode);
      [LoadRow(rows[0])] + LoadAllProducts(rows[1..])
  }

  /** Loading the rows of a valid table gives back each row's own barcode,
      so a loaded product is found under the same key in the table. */
  lemma LoadValidKeepsBarcodes(t: Table, rows: seq<Product>)
    requires Valid(t)
    requires forall i :: 0 <= i < |rows| ==> rows[i].barcode in t && t[rows[i].barcode] == rows[i]
    ensures forall i :: 0 <= i < |rows| ==>
      LoadAllProducts(rows)[i].barcode == rows[i].barcode && LoadAllProducts(rows)[i].barcode in t
  {
  }

  predicate IsDirectorySeparator(c: char) {
    c == '/' || c == '\\'
  }

  /** `Path.GetExtension`: the text from the last '.' of the final path
      segment to the end, or empty when there is none or the '.' is the
      last character. */
  function Extension(path: string): (r: string)
    ensures |r| <= |path|
    ensures r != [] ==> |r| >= 2 && r[0] == '.' && r == path[|path| - |r|..]
    ensures r != [] ==> forall k :: 1 <= k < |r| ==> r[k] != '.' && !IsDirectorySeparator(r[k])
    ensures r == [] ==>
      || (|path| > 0 && path[|path| - 1] == '.')
      || forall k :: 0 <= k < |path| && path[k] == '.' ==> exists j :: k < j < |path| && IsDirectorySeparator(path[j])
  {
    ExtensionFrom(path, |path|)
  }

  /** Scans `path[..i]` backwards; nothing after position `i` is a '.' or a
      separator. */
  function ExtensionFrom(path: string, i: nat): (r: string)
    requires i <= |path|
    requires forall k :: i <= k < |path| ==> path[k] != '.' && !IsDirectorySeparator(path[k])
    ensures |r| <= |path|
    ensures r != [] ==> |r| >= 2 && r[0] == '.' && r == path[|path| - |r|..]
    ensures r != [] ==> forall k :: 1 <= k < |r| ==> r[k] != '.' && !IsDirectorySeparator(r[k])
    ensures r == [] ==>
      || (i == |path| && |path| > 0 && path[|path| - 1] == '.')
      || forall k :: 0 <= k < i && path[k] == '.' ==> exists j :: k < j < |path| && IsDirectorySeparator(path[j])
    decreases i
  {
    if i == 0 then ""
    else if path[i - 1] == '.' then (if i == |path| then "" else path[i - 1..])
    else if IsDirectorySeparator(path[i - 1]) then ""
    else ExtensionFrom(path, i - 1)
  }

  /** `GetProductImagePath` without its directory part: "product_", then
      the barcode's letters and digits, then the source file's extension. */
  function ImageFileName(barcode: string, sourceImagePath: string): (r: string)
    ensures |r| >= 8 && r[..8] == "product_"
    ensures r[8..] == KeepLettersAndDigits(barcode) + Extension(sourceImagePath)
    ensures forall i :: 8 <= i < 8 + |KeepLettersAndDigits(barcode)| ==> IsLetterOrDigit(r[i])
  {
    KeepLettersAndDigitsSpec(barcode);
    "product_" + KeepLettersAndDigits(barcode) + Extension(sourceImagePath)
  }

  /** An image name never carries a separator from the barcode: the
      barcode part is letters and digits only, so the file lands directly
      in the products directory. */
  lemma ImageFileNameHasNoSeparatorFromBarcode(barcode: string, sourceImagePath: string)
    ensures forall i :: 0 <= i < |ImageFileName(barcode, sourceImagePath)| ==>
      !IsDirectorySeparator(ImageFileName(barcode, sourceImagePath)[i])
  {
    var r := ImageFileName(barcode, sourceImagePath);
    var n := |KeepLettersAndDigits(barcode)|;
    var e := Extension(sourceImagePath);
    KeepLettersAndDigitsSpec(barcode);
    forall i | 0 <= i < |r| ensures !IsDirectorySeparator(r[i]) {
      if i >= 8 + n {
        assert r[i] == e[i - 8 - n];
      }
    }
  }

  /** `UpdateProductQuantityAtomic`: `UPDATE … SET Quantity = Quantity - qty
      WHERE Barcode = barcode AND Quantity >= qty`, committed when a row was
      affected. The barcode is matched exactly, not normalised. */
  function UpdateQuantityAtomic(t: Table, barcode: string, qty: int): (r: (bool, Table))
    ensures r.0 <==> barcode in t && t[barcode].quantity >= qty
    ensures !r.0 ==> r.1 == t
    ensures r.0 ==> r.1.Keys == t.Keys && r.1[barcode].quantity == t[barcode].quantity - qty
    ensures r.0 ==> r.1[barcode] == t[barcode].(quantity := r.1[barcode].quantity)
    ensures r.0 ==> forall b :: b in t && b != barcode ==> r.1[b] == t[b]
    ensures r.0 && t[barcode].quantity >= 0 && qty >= 0 ==> 0 <= r.1[barcode].quantity <= t[barcode].quantity
    ensures Valid(t) ==> Valid(r.1)
  {
    if barcode in t && t[barcode].quantity >= qty then
      (true, t[barcode := t[barcode].(quantity := t[barcode].quantity - qty)])
    else (false, t)
  }

  datatype UpdateError = ProductNotFound

  /** `UpdateProductFlexible`: on the normalised barcode, set the quantity
      to `newQuantity` if given, otherwise to the current quantity plus
      `quantityChange` (0 if absent), never below zero; set the price to
      `newPrice` if given. An unknown barcode throws. */
  function UpdateProductFlexible(t: Table, barcode: string, quantityChange: Option<int>,
                                 newQuantity: Option<int>, newPrice: Option<Money>): (r: Result<Table, UpdateError>)
    ensures r.Failure? <==> Normalize(barcode) !in t
    ensures r.Success? ==> r.value.Keys == t.Keys
    ensures r.Success? ==> forall b :: b in t && b != Normalize(barcode) ==> r.value[b] == t[b]
    ensures r.Success? ==> var old_ := t[Normalize(barcode)]; var new_ := r.value[Normalize(barcode)];
      && new_.quantity >= 0
      && (newQuantity.Some? ==> new_.quantity == if newQuantity.value < 0 then 0 else newQuantity.value)
      && (newQuantity.None? ==>
            new_.quantity == if old_.quantity + quantityChange.GetOr(0) < 0 then 0 else old_.quantity + quantityChange.GetOr(0))
      && new_.price == (if newPrice.Some? then newPrice.value else old_.price)
      && new_.barcode == old_.barcode && new_.name == old_.name
      && new_.category == old_.category && new_.imagePath == old_.imagePath
    ensures r.Success? && Valid(t) ==> Valid(r.value)
  {
    var key := Normalize(barcode);
    if key !in t then Failure(ProductNotFound)
    else
      var current := t[key];
      var updated := newQuantity.GetOr(current.quantity + quantityChange.GetOr(0));
      var clamped := if updated < 0 then 0 else updated;
      Success(t[key := current.(quantity := clamped, price := newPrice.GetOr(current.price))])
  }

  /** `GetLowStockCount`: the products whose quantity is at most the
      threshold. */
  function LowStockCount(t: Table, threshold: int): (n: nat)
    ensures n <= |t|
    ensures n == |set b | b in t && t[b].quantity <= threshold|
  {
    var low := set b | b in t && t[b].quantity <= threshold;
    SubsetCard(low, t.Keys);
    |low|
  }

  lemma {:induction false} SubsetCard<T>(a: set<T>, b: set<T>)
    requires a <= b
    ensures |a| <= |b|
    decreases |b|
  {
    if a != {} {
      var x :| x in a;
      SubsetCard(a - {x}, b - {x});
    }
  }

  /** The default threshold is inclusive: with the dashboard's default,
      a product holding exactly 5 units is low on stock and one holding 6
      is not. */
  lemma DefaultThresholdInclusive()
    ensures var five := Product("a", "A", 1.0, 5, "", "");
      var six := Product("b", "B", 1.0, 6, "", "");
      LowStockCount(map["a" := five, "b" := six], LowStockThreshold) == 1
  {
    var five := Product("a", "A", 1.0, 5, "", "");
    var six := Product("b", "B", 1.0, 6, "", "");
    var t := map["a" := five, "b" := six];
    assert (set b | b in t && t[b].quantity <= LowStockThreshold) == {"a"};
  }

  /** Raising the threshold never lowers the count. */
  lemma LowStockMonotone(t: Table, lo: int, hi: int)
    requires lo <= hi
    ensures LowStockCount(t, lo) <= LowStockCount(t, hi)
  {
    SubsetCard(set b | b in t && t[b].quantity <= lo, set b | b in t && t[b].quantity <= hi);
  }

  /** A successful guarded decrement of a non-negative quantity never
      lowers the low-stock count. */
  lemma DecrementKeepsLowStock(t: Table, barcode: string, qty: int, threshold: int)
    requires qty >= 0
    ensures LowStockCount(t, threshold) <= LowStockCount(UpdateQuantityAtomic(t, barcode, qty).1, threshold)
  {
    var r := UpdateQuantityAtomic(t, barcode, qty).1;
    SubsetCard(set b | b in t && t[b].quantity <= threshold, set b | b in r && r[b].quantity <= threshold);
  }

  /** Price × quantity: a cart line's subtotal, a receipt item's amount,
      a sale row's total and one term of the inventory value. */
  function Amount(price: Money, quantity: int): Money {
    price * quantity as real
  }

  /** The amount of a quantity split in two is the sum of the two amounts. */
  lemma AmountAdd(price: Money, a: int, b: int)
    ensures Amount(price, a + b) == Amount(price, a) + Amount(price, b)
  {
    calc {
      Amount(price, a + b);
      price * (a as real + b as real);
      price * a as real + price * b as real;
    }
  }

  /** One row's contribution to `GetInventoryValue`. */
  function RowValue(p: Product): Money {
    Amount(p.price, p.quantity)
  }

  /** Some barcode of a non-empty table. */
  ghost function Pick(t: Table): (b: string)
    requires |t| != 0
    ensures b in t
  {
    var b :| b in t; b
  }

  lemma CardRemove(t: Table, b: string)
    requires b in t
    ensures |t - {b}| == |t| - 1
  {
    assert (t - {b}).Keys == t.Keys - {b};
  }

  /** `GetInventoryValue`: `SUM(Price * Quantity)` over the table, and 0
      for an empty table (where SQL's SUM is NULL). Rows are added up in
      the order `Pick` chooses; `InventoryValueRemove` shows the order is
      irrelevant. */
  ghost function InventoryValue(t: Table): (v: Money)
    ensures t == map[] ==> v == 0.0
    decreases |t|
  {
    if |t| == 0 then 0.0
    else
      var b := Pick(t);
      RowValue(t[b]) + InventoryValue(t - {b})
  }

  /** The inventory value splits off any one row. */
  lemma {:induction false} InventoryValueRemove(t: Table, b: string)
    requires b in t
    ensures InventoryValue(t) == RowValue(t[b]) + InventoryValue(t - {b})
    decreases |t|
  {
    var c := Pick(t);
    if c != b {
      var t1 := t - {c};
      var t2 := t - {b};
      CardRemove(t, c);
      CardRemove(t, b);
      assert b in t1 && c in t2;
      InventoryValueRemove(t1, b);
      InventoryValueRemove(t2, c);
      assert t1 - {b} == t2 - {c};
      assert t1[b] == t[b] && t2[c] == t[c];
    }
  }

  /** Replacing one row changes the inventory value by the difference of
      the two rows' values. */
  lemma InventoryValueReplace(t: Table, b: string, p: Product)
    requires b in t
    ensures InventoryValue(t[b := p]) == InventoryValue(t) - RowValue(t[b]) + RowValue(p)
  {
    var u := t[b := p];
    InventoryValueRemove(t, b);
    InventoryValueRemove(u, b);
    assert u - {b} == t - {b};
  }

  /** A successful guarded decrement changes the inventory value only through
      the decremented row (whose value then drops by price × qty, as
      RowValueDecrement states); a refused one leaves the value unchanged. */
  lemma DecrementInventoryValue(t: Table, barcode: string, qty: int)
    ensures UpdateQuantityAtomic(t, barcode, qty).0 ==>
      InventoryValue(UpdateQuantityAtomic(t, barcode, qty).1)
        == InventoryValue(t) - RowValue(t[barcode]) + RowValue(UpdateQuantityAtomic(t, barcode, qty).1[barcode])
    ensures UpdateQuantityAtomic(t, barcode, qty).0 ==>
      UpdateQuantityAtomic(t, barcode, qty).1[barcode] == t[barcode].(quantity := t[barcode].quantity - qty)
    ensures !UpdateQuantityAtomic(t, barcode, qty).0 ==>
      InventoryValue(UpdateQuantityAtomic(t, barcode, qty).1) == InventoryValue(t)
  {
    var r := UpdateQuantityAtomic(t, barcode, qty);
    if r.0 {
      var p' := t[barcode].(quantity := t[barcode].quantity - qty);
      assert r.1 == t[barcode := p'];
      InventoryValueReplace(t, barcode, p');
    }
  }

  /** Lowering a row's quantity by `d` lowers its value by price × d. */
  lemma RowValueDecrement(p: Product, d: int)
    ensures RowValue(p.(quantity := p.quantity - d)) == RowValue(p) - Amount(p.price, d)
  {
    var q := p.quantity;
    calc {
      RowValue(p.(quantity := q - d));
      p.price * (q - d) as real;
      p.price * (q as real - d as real);
      p.price * q as real - p.price * d as real;
    }
  }
}
