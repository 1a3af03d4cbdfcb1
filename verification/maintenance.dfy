/** The catalogue screen's rules (ProductControl): validating and adding a
    new product, refilling stock and repricing, and the search filter over
    the product list. Text boxes that must parse are given as their parsed
    value; the list the screen shows is a sequence of products. */
module Maintenance {
  import opened Wrappers
  import opened Text
  import opened ProductTable

  /** A numeric text box: left blank (empty or whitespace), holding a
      parsed value, or holding text that does not parse. */
  datatype Entry<T> = Blank | Parsed(value: T) | Invalid

  // ----- Adding a product -----

  /** The add-product form. `price`, `quantity` and `category` are `None`
      when the text does not parse or no category is selected. */
  datatype AddForm = AddForm(
    barcodeText: string,
    nameText: string,
    price: Option<Money>,
    quantity: Option<int>,
    category: Option<string>,
    imagePath: string)

  datatype ValidationError = BlankBarcode | DuplicateBarcode | InvalidPrice | InvalidQuantity | NoCategory

  /** Whether some listed product has exactly this barcode text. */
  predicate Listed(products: seq<Product>, barcode: string) {
    exists i :: 0 <= i < |products| && products[i].barcode == barcode
  }

  /** Whether some listed product has this barcode once both are trimmed
      and lower-cased. */
  predicate ListedNormalized(products: seq<Product>, barcode: string) {
    exists i :: 0 <= i < |products| && Normalize(products[i].barcode) == Normalize(barcode)
  }

  /** `ValidateProduct`, checks in the handler's order. The duplicate check
      compares the trimmed text exactly with the listed barcodes. */
  function ValidateProduct(products: seq<Product>, f: AddForm): (r: Option<ValidationError>)
    ensures r == Some(BlankBarcode) <==> IsBlank(f.barcodeText)
    ensures r == Some(DuplicateBarcode) <==> !IsBlank(f.barcodeText) && Listed(products, Trim(f.barcodeText))
    ensures r == Some(InvalidPrice) <==>
      !IsBlank(f.barcodeText) && !Listed(products, Trim(f.barcodeText)) && f.price.None?
    ensures r == Some(InvalidQuantity) <==>
      !IsBlank(f.barcodeText) && !Listed(products, Trim(f.barcodeText)) && f.price.Some? && f.quantity.None?
    ensures r == Some(NoCategory) <==>
      !IsBlank(f.barcodeText) && !Listed(products, Trim(f.barcodeText)) && f.price.Some? && f.quantity.Some?
      && f.category.None?
  {
    if IsBlank(f.barcodeText) then Some(BlankBarcode)
    else if Listed(products, Trim(f.barcodeText)) then Some(DuplicateBarcode)
    else if f.price.None? then Some(InvalidPrice)
    else if f.quantity.None? then Some(InvalidQuantity)
    else if f.category.None? then Some(NoCategory)
    else None
  }

  /** The product `BtnAddProduct_Click` builds from a valid form: barcode
      and name trimmed, barcode case kept. */
  function NewProduct(f: AddForm): Product
    requires f.price.Some? && f.quantity.Some? && f.category.Some?
  {
    Product(Trim(f.barcodeText), Trim(f.nameText), f.price.value, f.quantity.value, f.category.value, f.imagePath)
  }

  /** The state the add handler works on: the products the screen lists and
      the Products table. */
  datatype Catalogue = Catalogue(products: seq<Product>, table: Table)

  /** Every stored product is listed, under a barcode that normalises to
      its key. */
  predicate Covers(c: Catalogue) {
    forall k :: k in c.table ==> exists i :: 0 <= i < |c.products| && Normalize(c.products[i].barcode) == k
  }

  /** `BtnAddProduct_Click` as written: validate, then upsert the new
      product and append it to the list. */
  function AddProductAsWritten(c: Catalogue, f: AddForm): (r: Result<Catalogue, ValidationError>)
    ensures r.Failure? <==> ValidateProduct(c.products, f).Some?
    ensures r.Failure? ==> r.error == ValidateProduct(c.products, f).value
    ensures r.Success? ==> r.value.table == SaveProduct(c.table, NewProduct(f))
    ensures r.Success? ==> r.value.products == c.products + [NewProduct(f)]
  {
    match ValidateProduct(c.products, f)
    case Some(e) => Failure(e)
    case None =>
      var p := NewProduct(f);
      Success(Catalogue(c.products + [p], SaveProduct(c.table, p)))
  }

  /** As written: with "abc" stored (and listed, as loading
      lower-cases it), adding "ABC" passes validation and the upsert
      replaces the stored product, its stock included. */
  lemma MixedCaseDuplicateOverwrites()
    ensures var stored := Product("abc", "Soap", 1.0, 10, "General", "");
      var c := Catalogue([stored], map["abc" := stored]);
      var f := AddForm("ABC", "Candle", Some(5.0), Some(1), Some("General"), "");
      && ValidateProduct(c.products, f) == None
      && AddProductAsWritten(c, f).Success?
      && AddProductAsWritten(c, f).value.table.Keys == {"abc"}
      && AddProductAsWritten(c, f).value.table["abc"].name == "Candle"
      && AddProductAsWritten(c, f).value.table["abc"].quantity == 1
  {
    var f := AddForm("ABC", "Candle", Some(5.0), Some(1), Some("General"), "");
    TrimOfTrimmed("ABC");
    TrimOfTrimmed("abc");
    TrimOfTrimmed("Candle");
    assert !IsWhite("ABC"[0]);
    assert !IsBlank("ABC");
    assert Trim("ABC") != "abc" by {
      assert "ABC"[0] != "abc"[0];
    }
    ToLowerSpec("ABC");
    assert Normalize("ABC") == "abc";
  }

  /** The duplicate check the handler evidently intends: compare barcodes
      trimmed and lower-cased, as they are stored. */
  function ValidateProductChecked(products: seq<Product>, f: AddForm): (r: Option<ValidationError>)
    ensures r == Some(DuplicateBarcode) <==> !IsBlank(f.barcodeText) && ListedNormalized(products, f.barcodeText)
    ensures r.None? <==>
      !IsBlank(f.barcodeText) && !ListedNormalized(products, f.barcodeText)
      && f.price.Some? && f.quantity.Some? && f.category.Some?
  {
    if IsBlank(f.barcodeText) then Some(BlankBarcode)
    else if ListedNormalized(products, f.barcodeText) then Some(DuplicateBarcode)
    else if f.price.None? then Some(InvalidPrice)
    else if f.quantity.None? then Some(InvalidQuantity)
    else if f.category.None? then Some(NoCategory)
    else None
  }

  /** Adding a product with the normalised duplicate check. */
  function AddProduct(c: Catalogue, f: AddForm): (r: Result<Catalogue, ValidationError>)
    ensures r.Failure? <==> ValidateProductChecked(c.products, f).Some?
    ensures r.Success? ==> r.value.products == c.products + [NewProduct(f)]
    ensures r.Success? ==> r.value.table == SaveProduct(c.table, NewProduct(f))
  {
    match ValidateProductChecked(c.products, f)
    case Some(e) => Failure(e)
    case None =>
      var p := NewProduct(f);
      Success(Catalogue(c.products + [p], SaveProduct(c.table, p)))
  }

  /** An accepted barcode normalises to a key the table does not hold. */
  lemma AcceptedKeyIsNew(c: Catalogue, f: AddForm)
    requires Covers(c)
    requires ValidateProductChecked(c.products, f).None?
    ensures Normalize(NewProduct(f).barcode) !in c.table
  {
    NormalizeOfTrim(f.barcodeText);
    assert !ListedNormalized(c.products, f.barcodeText);
  }

  /** With the normalised check, an accepted product is always new to the
      table: every stored product is kept as it was and exactly one row is
      added. */
  lemma AddProductNeverOverwrites(c: Catalogue, f: AddForm)
    requires Covers(c)
    ensures AddProduct(c, f).Success? ==>
      forall k :: k in c.table ==> k in AddProduct(c, f).value.table && AddProduct(c, f).value.table[k] == c.table[k]
    ensures AddProduct(c, f).Success? ==> |AddProduct(c, f).value.table| == |c.table| + 1
  {
    if AddProduct(c, f).Success? {
      AcceptedKeyIsNew(c, f);
      SaveProductSize(c.table, NewProduct(f));
    }
  }

  /** After an accepted add, every stored product is still listed. */
  lemma AddProductKeepsCovers(c: Catalogue, f: AddForm)
    requires Covers(c)
    ensures AddProduct(c, f).Success? ==> Covers(AddProduct(c, f).value)
  {
    if AddProduct(c, f).Success? {
      var p := NewProduct(f);
      var r := AddProduct(c, f).value;
      forall k | k in r.table
        ensures exists i :: 0 <= i < |r.products| && Normalize(r.products[i].barcode) == k
      {
        if k in c.table {
          var i :| 0 <= i < |c.products| && Normalize(c.products[i].barcode) == k;
          assert r.products[i] == c.products[i];
        } else {
          assert r.products[|c.products|] == p;
        }
      }
    }
  }

  // ----- Refilling stock -----

  /** The refill form: the barcode text, the quantity to add and the new
      price. */
  datatype RefillForm = RefillForm(barcodeText: string, addQuantity: Entry<int>, newPrice: Entry<Money>)

  datatype RefillError = NoBarcode | NoSuchProduct | InvalidAddQuantity | InvalidNewPrice

  /** A successful refill: the table afterwards, and the product as the
      handler updates its in-memory copy to show it. */
  datatype Refilled = Refilled(table: Table, shown: Product)

  /** The units to add: none for a blank box, a non-negative number as
      typed; anything else is refused. */
  function AddedUnits(e: Entry<int>): Option<nat> {
    match e
    case Blank => Some(0)
    case Parsed(v) => if v < 0 then None else Some(v)
    case Invalid => None
  }

  /** The price typed, if a valid one was: blank keeps the current price
      (`Some(None)`), a positive number replaces it, anything else is
      refused (`None`). */
  function TypedPrice(e: Entry<Money>): Option<Option<Money>> {
    match e
    case Blank => Some(None)
    case Parsed(v) => if v <= 0.0 then None else Some(Some(v))
    case Invalid => None
  }

  /** The update step of a refill once the product `key` is found: a
      quantity change is passed only when units are added and a price only
      when it differs from the stored one; the in-memory copy is updated
      with the typed values. */
  function ApplyRefill(t: Table, key: string, addQty: nat, typed: Option<Money>): (r: Refilled)
    requires Valid(t) && key in t
    ensures r.table.Keys == t.Keys
    ensures forall k :: k in t && k != key ==> r.table[k] == t[k]
    ensures r.table[key].quantity >= t[key].quantity
    ensures t[key].quantity >= 0 ==> r.table[key].quantity == t[key].quantity + addQty
    ensures r.table[key].price == typed.GetOr(t[key].price)
    ensures r.shown.quantity == t[key].quantity + addQty
    ensures r.shown.price == r.table[key].price
    ensures Valid(r.table)
  {
    var product := t[key];
    var newPrice := if typed.Some? && typed.value != product.price then typed else None;
    var change := if addQty > 0 then Some(addQty as int) else None;
    NormalizeIdempotent(product.barcode);
    assert Normalize(key) == key;
    match UpdateProductFlexible(t, key, change, None, newPrice)
    case Failure(_) => assert false; Refilled(t, product)
    case Success(updated) =>
      Refilled(updated, product.(quantity := product.quantity + addQty, price := newPrice.GetOr(product.price)))
  }

  /** The rule part of `BtnRefillStock_Click`: normalise the barcode and
      find it among the freshly loaded products, read the units to add and
      the new price, then apply the update. */
  function Refill(t: Table, f: RefillForm): (r: Result<Refilled, RefillError>)
    requires Valid(t)
    ensures r == Failure(NoBarcode) <==> IsBlank(f.barcodeText)
    ensures r == Failure(NoSuchProduct) <==> !IsBlank(f.barcodeText) && Normalize(f.barcodeText) !in t
    ensures r == Failure(InvalidAddQuantity) <==>
      !IsBlank(f.barcodeText) && Normalize(f.barcodeText) in t && AddedUnits(f.addQuantity).None?
    ensures r == Failure(InvalidNewPrice) <==>
      !IsBlank(f.barcodeText) && Normalize(f.barcodeText) in t && AddedUnits(f.addQuantity).Some?
      && TypedPrice(f.newPrice).None?
    ensures r.Success? ==> Normalize(f.barcodeText) in t && r.value.table.Keys == t.Keys && Valid(r.value.table)
    ensures r.Success? ==> forall k :: k in t && k != Normalize(f.barcodeText) ==> r.value.table[k] == t[k]
    ensures r.Success? ==> var key := Normalize(f.barcodeText); var before := t[key]; var after := r.value.table[key];
      && after.quantity >= before.quantity
      && (before.quantity >= 0 ==> after.quantity == before.quantity + AddedUnits(f.addQuantity).value)
      && after.price == TypedPrice(f.newPrice).value.GetOr(before.price)
      && r.value.shown.quantity == before.quantity + AddedUnits(f.addQuantity).value
      && r.value.shown.price == after.price
  {
    NormalizeSpec(f.barcodeText);
    var key := Normalize(f.barcodeText);
    if key == [] then Failure(NoBarcode)
    else if key !in t then Failure(NoSuchProduct)
    else
      match AddedUnits(f.addQuantity)
      case None => Failure(InvalidAddQuantity)
      case Some(addQty) =>
        match TypedPrice(f.newPrice)
        case None => Failure(InvalidNewPrice)
        case Some(typed) => Success(ApplyRefill(t, key, addQty, typed))
  }

  /** Refilling never lowers any product's stock. */
  lemma RefillNeverLowersStock(t: Table, f: RefillForm)
    requires Valid(t)
    ensures Refill(t, f).Success? ==>
      forall k :: k in t ==> Refill(t, f).value.table[k].quantity >= t[k].quantity
  {
  }

  /** For a product whose stock is not negative, what the handler shows
      after a refill is exactly what the table holds. */
  lemma RefillShowsStoredProduct(t: Table, f: RefillForm)
    requires Valid(t)
    ensures Refill(t, f).Success? && t[Normalize(f.barcodeText)].quantity >= 0 ==>
      Refill(t, f).value.shown == Refill(t, f).value.table[Normalize(f.barcodeText)]
  {
  }

  // ----- Searching -----

  /** A product matches a query when its lower-cased name or barcode
      contains it. */
  predicate MatchesQuery(p: Product, query: string) {
    Contains(ToLower(p.name), query) || Contains(ToLower(p.barcode), query)
  }

  /** The matching products, in list order. */
  function FilterBy(products: seq<Product>, query: string): (r: seq<Product>)
    ensures |r| <= |products|
    ensures forall p :: p in r ==> p in products && MatchesQuery(p, query)
    ensures forall p :: p in products && MatchesQuery(p, query) ==> p in r
  {
    if products == [] then []
    else
      var rest := FilterBy(products[1..], query);
      assert forall p :: p in products ==> p == products[0] || p in products[1..];
      if MatchesQuery(products[0], query) then [products[0]] + rest else rest
  }

  /** Filtering a list made of two parts filters each part in turn, so the
      result keeps the list's order. */
  lemma {:induction false} FilterByAppend(a: seq<Product>, b: seq<Product>, query: string)
    ensures FilterBy(a + b, query) == FilterBy(a, query) + FilterBy(b, query)
    decreases |a|
  {
    if a == [] {
      assert a + b == b;
    } else {
      assert (a + b)[0] == a[0];
      assert (a + b)[1..] == a[1..] + b;
      FilterByAppend(a[1..], b, query);
    }
  }

  /** `TxtSearch_TextChanged`: a blank search shows the full list;
      otherwise the products whose lower-cased name or barcode contains the
      trimmed, lower-cased search text. */
  function Search(products: seq<Product>, searchText: string): (r: seq<Product>)
    ensures IsBlank(searchText) ==> r == products
    ensures !IsBlank(searchText) ==> r == FilterBy(products, Normalize(searchText))
  {
    NormalizeSpec(searchText);
    var query := Normalize(searchText);
    if query == [] then products else FilterBy(products, query)
  }

  /** A listed product is found by a non-blank search exactly when the
      normalised search text occurs in its lower-cased name or barcode. */
  lemma SearchFinds(products: seq<Product>, searchText: string, p: Product)
    requires p in products && !IsBlank(searchText)
    ensures p in Search(products, searchText) <==>
      (exists at :: OccursAt(ToLower(p.name), Normalize(searchText), at))
      || (exists at :: OccursAt(ToLower(p.barcode), Normalize(searchText), at))
  {
    var q := Normalize(searchText);
    NormalizeSpec(searchText);
    assert Search(products, searchText) == FilterBy(products, q);
    assert p in FilterBy(products, q) <==> MatchesQuery(p, q);
    ContainsSpec(ToLower(p.name), q);
    ContainsSpec(ToLower(p.barcode), q);
    assert Contains(ToLower(p.name), q) <==> exists at :: OccursAt(ToLower(p.name), q, at);
    assert Contains(ToLower(p.barcode), q) <==> exists at :: OccursAt(ToLower(p.barcode), q, at);
  }

  /** A search for a product's own barcode, typed in any letter case and
      padded with spaces, finds it. */
  lemma SearchFindsOwnBarcode(products: seq<Product>, p: Product, searchText: string)
    requires p in products && !IsBlank(searchText)
    requires Normalize(searchText) == ToLower(p.barcode)
    ensures p in Search(products, searchText)
  {
    assert OccursAt(ToLower(p.barcode), Normalize(searchText), 0);
    SearchFinds(products, searchText, p);
  }
}
