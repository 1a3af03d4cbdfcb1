/** The sell screen's cart engine (SellControl): the cart lines, the LIFO
    undo history, adding a scanned product, undoing the last add, editing a
    line's quantity in the grid, and the product cache the scanner looks
    products up in. Cart and history are sequences; the top of the history
    stack is its last element. */
module Cart {
  import opened Wrappers
  import opened Text
  import opened ProductTable

  /** `CartItem`: one line of the cart, and also one entry of the undo
      history. */
  datatype CartLine = CartLine(barcode: string, name: string, price: Money, quantity: int)

  /** The cart grid's binding list and the `soldHistory` stack. */
  datatype Session = Session(cart: seq<CartLine>, history: seq<CartLine>)

  /** The outcome the status label reports for one sell attempt. */
  datatype SellStatus =
    | Ignored
    | NotFound
    | OutOfStock
    | OnlyAvailable(available: int)
    | QuantityTooSmall
    | Added

  /** `CartItem.SubTotal`: price × quantity, so a line with no units or no
      price costs nothing and a priced line with units is never negative. */
  function SubTotal(l: CartLine): (r: Money)
    ensures l.quantity == 0 || l.price == 0.0 ==> r == 0.0
    ensures l.price >= 0.0 && l.quantity >= 0 ==> r >= 0.0
    ensures l.price > 0.0 && l.quantity > 0 ==> r > 0.0
  {
    Amount(l.price, l.quantity)
  }

  /** Every line has a non-negative price and quantity. */
  predicate NonNegative(cart: seq<CartLine>) {
    forall i :: 0 <= i < |cart| ==> cart[i].price >= 0.0 && cart[i].quantity >= 0
  }

  /** `UpdateCartTotal`: the sum of the line subtotals, never negative for
      a cart of non-negative lines, and zero for the empty cart. */
  function Total(cart: seq<CartLine>): (r: Money)
    ensures cart == [] ==> r == 0.0
    ensures NonNegative(cart) ==> r >= 0.0
    ensures NonNegative(cart) && r == 0.0 ==> forall i :: 0 <= i < |cart| ==> SubTotal(cart[i]) == 0.0
  {
    if cart == [] then 0.0
    else
      assert forall i :: 0 <= i < |cart[1..]| ==> cart[1..][i] == cart[i + 1];
      SubTotal(cart[0]) + Total(cart[1..])
  }

  /** A line belongs to `barcode` when both trim and lower-case alike. */
  predicate Matches(l: CartLine, barcode: string) {
    Normalize(l.barcode) == Normalize(barcode)
  }

  /** At most one line per normalised barcode. */
  predicate Unique(cart: seq<CartLine>) {
    forall i, j :: 0 <= i < j < |cart| ==> Normalize(cart[i].barcode) != Normalize(cart[j].barcode)
  }

  /** Every line holds at least one unit. */
  predicate Positive(cart: seq<CartLine>) {
    forall i :: 0 <= i < |cart| ==> cart[i].quantity >= 1
  }

  /** Units of `barcode` in the cart, over all lines that match it. */
  function QuantityOf(cart: seq<CartLine>, barcode: string): int {
    if cart == [] then 0 else Units(cart[0], barcode) + QuantityOf(cart[1..], barcode)
  }

  /** `FirstOrDefault` on the normalised barcode: the index of the first
      matching line, if any. */
  function FindLine(cart: seq<CartLine>, barcode: string): (r: Option<nat>)
    ensures r.Some? ==> r.value < |cart| && Matches(cart[r.value], barcode)
    ensures r.Some? ==> forall j :: 0 <= j < r.value ==> !Matches(cart[j], barcode)
    ensures r.None? ==> forall j :: 0 <= j < |cart| ==> !Matches(cart[j], barcode)
  {
    FindFrom(cart, barcode, 0)
  }

  function FindFrom(cart: seq<CartLine>, barcode: string, i: nat): (r: Option<nat>)
    requires i <= |cart|
    requires forall j :: 0 <= j < i ==> !Matches(cart[j], barcode)
    ensures r.Some? ==> i <= r.value < |cart| && Matches(cart[r.value], barcode)
    ensures r.Some? ==> forall j :: 0 <= j < r.value ==> !Matches(cart[j], barcode)
    ensures r.None? ==> forall j :: 0 <= j < |cart| ==> !Matches(cart[j], barcode)
    decreases |cart| - i
  {
    if i == |cart| then None
    else if Matches(cart[i], barcode) then Some(i)
    else FindFrom(cart, barcode, i + 1)
  }

  /** `AddToCart`: raise the first line for the product's barcode by `qty`,
      or append a new line when there is none. */
  function AddToCart(cart: seq<CartLine>, p: Product, qty: int): (r: seq<CartLine>)
    ensures FindLine(cart, p.barcode).None? ==> |r| == |cart| + 1 && r[..|cart|] == cart
    ensures FindLine(cart, p.barcode).None? ==> r[|cart|] == CartLine(p.barcode, p.name, p.price, qty)
    ensures FindLine(cart, p.barcode).Some? ==> |r| == |cart|
    ensures FindLine(cart, p.barcode).Some? ==> var i := FindLine(cart, p.barcode).value;
      r[i] == cart[i].(quantity := cart[i].quantity + qty)
    ensures FindLine(r, p.barcode).Some?
    ensures forall j :: 0 <= j < |r| && !Matches(r[j], p.barcode) ==> j < |cart| && r[j] == cart[j]
    ensures forall j :: 0 <= j < |cart| ==> r[j].barcode == cart[j].barcode
    ensures Unique(cart) ==> Unique(r)
    ensures qty >= 1 && Positive(cart) ==> Positive(r)
  {
    match FindLine(cart, p.barcode)
    case None =>
      var l := CartLine(p.barcode, p.name, p.price, qty);
      AppendLine(cart, l);
      assert Matches((cart + [l])[|cart|], p.barcode);
      cart + [l]
    case Some(i) =>
      var l := cart[i].(quantity := cart[i].quantity + qty);
      ReplaceLine(cart, i, l);
      assert Matches(cart[i := l][i], p.barcode);
      cart[i := l]
  }

  /** Appending a line whose barcode no line matches keeps the cart free of
      duplicates, and free of empty lines when the new line holds units. */
  lemma AppendLine(cart: seq<CartLine>, l: CartLine)
    requires forall j :: 0 <= j < |cart| ==> !Matches(cart[j], l.barcode)
    ensures Unique(cart) ==> Unique(cart + [l])
    ensures Positive(cart) && l.quantity >= 1 ==> Positive(cart + [l])
  {
    var r := cart + [l];
    assert forall j :: 0 <= j < |cart| ==> r[j] == cart[j];
  }

  /** Replacing line `i` by one with the same barcode keeps the cart free
      of duplicates, and free of empty lines when the new line holds units. */
  lemma ReplaceLine(cart: seq<CartLine>, i: nat, l: CartLine)
    requires i < |cart| && l.barcode == cart[i].barcode
    ensures Unique(cart) ==> Unique(cart[i := l])
    ensures Positive(cart) && l.quantity >= 1 ==> Positive(cart[i := l])
  {
    assert forall j :: 0 <= j < |cart| ==> cart[i := l][j].barcode == cart[j].barcode;
  }

  /** The price the added units are charged at: an existing line keeps its
      own price, a new line takes the product's. */
  function LinePrice(cart: seq<CartLine>, p: Product): Money {
    match FindLine(cart, p.barcode)
    case None => p.price
    case Some(i) => cart[i].price
  }

  /** `SellProduct` with the product cache already refreshed on a miss:
      ignore a blank barcode; refuse an unknown product, one out of stock,
      one with less stock than `qty`, and a quantity below one — in that
      order — leaving cart and history alone; otherwise add to the cart and
      push the product with `qty` onto the history. */
  function SellProduct(s: Session, cache: map<string, Product>, input: string, qty: int): (r: (SellStatus, Session))
    ensures r.0 != Added ==> r.1 == s
    ensures r.0 == Ignored <==> IsBlank(input)
    ensures r.0 == NotFound <==> !IsBlank(input) && Normalize(input) !in cache
    ensures r.0 == OutOfStock <==>
      !IsBlank(input) && Normalize(input) in cache && cache[Normalize(input)].quantity <= 0
    ensures r.0.OnlyAvailable? <==>
      !IsBlank(input) && Normalize(input) in cache && 0 < cache[Normalize(input)].quantity < qty
    ensures r.0.OnlyAvailable? ==> r.0.available == cache[Normalize(input)].quantity
    ensures r.0 == QuantityTooSmall <==>
      !IsBlank(input) && Normalize(input) in cache && 0 < cache[Normalize(input)].quantity && qty < 1
      && qty <= cache[Normalize(input)].quantity
    ensures r.0 == Added ==> qty >= 1 && Normalize(input) in cache && cache[Normalize(input)].quantity >= qty
    ensures r.0 == Added ==> var p := cache[Normalize(input)];
      && r.1.cart == AddToCart(s.cart, p, qty)
      && r.1.history == s.history + [CartLine(p.barcode, p.name, p.price, qty)]
  {
    TrimSpec(input);
    var barcode := Trim(input);
    if barcode == [] then (Ignored, s)
    else
      var key := ToLower(barcode);
      if key !in cache then (NotFound, s)
      else
        var p := cache[key];
        if p.quantity <= 0 then (OutOfStock, s)
        else if p.quantity < qty then (OnlyAvailable(p.quantity), s)
        else if qty < 1 then (QuantityTooSmall, s)
        else (Added, Session(AddToCart(s.cart, p, qty), s.history + [CartLine(p.barcode, p.name, p.price, qty)]))
  }

  /** Take `q` units off the first line matching `barcode`, dropping the
      line when nothing is left of it; a cart without such a line is left
      as it is. */
  function TakeOff(cart: seq<CartLine>, barcode: string, q: int): (r: seq<CartLine>)
    ensures FindLine(cart, barcode).None? ==> r == cart
    ensures |r| <= |cart|
    ensures FindLine(cart, barcode).Some? ==> var i := FindLine(cart, barcode).value;
      && (cart[i].quantity - q <= 0 ==> |r| == |cart| - 1)
      && (cart[i].quantity - q > 0 ==> |r| == |cart| && r[i] == cart[i].(quantity := cart[i].quantity - q))
    ensures FindLine(cart, barcode).Some? ==> var i := FindLine(cart, barcode).value;
      |r| >= i && r[..i] == cart[..i] && r[|r| - (|cart| - i - 1)..] == cart[i + 1..]
    ensures forall j :: 0 <= j < |cart| && !Matches(cart[j], barcode) ==> cart[j] in r
    ensures Unique(cart) ==> Unique(r)
    ensures Positive(cart) ==> Positive(r)
  {
    match FindLine(cart, barcode)
    case None => cart
    case Some(i) =>
      var left := cart[i].quantity - q;
      if left <= 0 then
        RemoveLine(cart, i);
        var r := cart[..i] + cart[i + 1..];
        assert r[..i] == cart[..i] && r[i..] == cart[i + 1..];
        r
      else
        var r := cart[i := cart[i].(quantity := left)];
        assert forall j :: 0 <= j < |cart| && j != i ==> cart[j] == r[j];
        assert r[..i] == cart[..i] && r[i + 1..] == cart[i + 1..];
        r
  }

  /** Dropping line `i` keeps every other line, and keeps the cart
      free of duplicates and of empty lines. */
  lemma RemoveLine(cart: seq<CartLine>, i: nat)
    requires i < |cart|
    ensures forall j :: 0 <= j < |cart| && j != i ==> cart[j] in cart[..i] + cart[i + 1..]
    ensures Unique(cart) ==> Unique(cart[..i] + cart[i + 1..])
    ensures Positive(cart) ==> Positive(cart[..i] + cart[i + 1..])
  {
    var r := cart[..i] + cart[i + 1..];
    forall j | 0 <= j < |cart| && j != i ensures cart[j] in r {
      if j < i {
        assert r[j] == cart[j];
      } else {
        assert r[j - 1] == cart[j];
      }
    }
    assert forall j :: 0 <= j < |r| ==> r[j] == cart[if j < i then j else j + 1];
  }

  /** `UndoSale`: pop the last history entry and take its quantity off the
      first matching line. An empty history changes nothing. */
  function UndoSale(s: Session): (r: Session)
    ensures s.history == [] ==> r == s
    ensures s.history != [] ==> r.history == s.history[..|s.history| - 1]
    ensures s.history != [] ==>
      r.cart == TakeOff(s.cart, s.history[|s.history| - 1].barcode, s.history[|s.history| - 1].quantity)
  {
    if s.history == [] then s
    else
      var last := s.history[|s.history| - 1];
      Session(TakeOff(s.cart, last.barcode, last.quantity), s.history[..|s.history| - 1])
  }

  /** `DgvCart_CellEndEdit`: after the grid stores the typed quantity in a
      line, a quantity below one becomes one. A negative row index (the
      header row) is ignored. */
  function EditQuantity(s: Session, row: int, typed: int): (r: Session)
    requires row < |s.cart|
    ensures r.history == s.history && |r.cart| == |s.cart|
    ensures row >= 0 ==> r.cart[row].quantity >= 1
    ensures row >= 0 && typed >= 1 ==> r.cart[row].quantity == typed
    ensures forall j :: 0 <= j < |s.cart| && j != row ==> r.cart[j] == s.cart[j]
    ensures forall j :: 0 <= j < |s.cart| ==>
      r.cart[j].barcode == s.cart[j].barcode && r.cart[j].price == s.cart[j].price
    ensures Unique(s.cart) ==> Unique(r.cart)
    ensures Positive(s.cart) ==> Positive(r.cart)
  {
    if row < 0 then s
    else Session(s.cart[row := s.cart[row].(quantity := if typed < 1 then 1 else typed)], s.history)
  }

  /** `LoadProductsCache`: the first product loaded for each normalised
      barcode. */
  function BuildCache(products: seq<Product>): (c: map<string, Product>)
    ensures forall k :: k in c <==> exists i :: 0 <= i < |products| && Normalize(products[i].barcode) == k
    ensures forall k :: k in c ==> exists i :: (0 <= i < |products| && c[k] == products[i]
      && Normalize(products[i].barcode) == k
      && forall j :: 0 <= j < i ==> Normalize(products[j].barcode) != k)
  {
    if products == [] then map[]
    else
      var rest := BuildCache(products[1..]);
      var c := rest[Normalize(products[0].barcode) := products[0]];
      assert forall i :: 1 <= i < |products| ==> products[i] == products[1..][i - 1];
      forall k | k in c
        ensures exists i :: (0 <= i < |products| && c[k] == products[i]
          && Normalize(products[i].barcode) == k
          && forall j :: 0 <= j < i ==> Normalize(products[j].barcode) != k)
      {
        if k != Normalize(products[0].barcode) {
          var i :| 0 <= i < |products[1..]| && rest[k] == products[1..][i]
            && Normalize(products[1..][i].barcode) == k
            && forall j :: 0 <= j < i ==> Normalize(products[1..][j].barcode) != k;
          assert c[k] == products[i + 1];
        } else {
          assert c[k] == products[0];
        }
      }
      c
  }

  /** The cache the sell screen builds from a table scan: a typed barcode
      is known exactly when some scanned row's barcode normalises to it, and
      it is served from the first such row, as loaded. */
  lemma LoadedCacheServesFirstRow(rows: seq<Product>, input: string)
    ensures Normalize(input) in BuildCache(LoadAllProducts(rows)) <==>
      exists i :: 0 <= i < |rows| && Normalize(rows[i].barcode) == Normalize(input)
    ensures forall i ::
      (0 <= i < |rows| && Normalize(rows[i].barcode) == Normalize(input)
       && forall j :: 0 <= j < i ==> Normalize(rows[j].barcode) != Normalize(input)) ==>
      BuildCache(LoadAllProducts(rows))[Normalize(input)] == LoadRow(rows[i])
  {
    var loaded := LoadAllProducts(rows);
    var c := BuildCache(loaded);
    var k := Normalize(input);
    forall i | 0 <= i < |rows|
      ensures Normalize(loaded[i].barcode) == Normalize(rows[i].barcode)
      ensures loaded[i] == LoadRow(rows[i])
    {
      NormalizeIdempotent(rows[i].barcode);
    }
    forall i | 0 <= i < |rows| && Normalize(rows[i].barcode) == k
      && (forall j :: 0 <= j < i ==> Normalize(rows[j].barcode) != k)
      ensures c[k] == LoadRow(rows[i])
    {
      assert Normalize(loaded[i].barcode) == k;
      var m :| 0 <= m < |loaded| && c[k] == loaded[m] && Normalize(loaded[m].barcode) == k
        && forall j :: 0 <= j < m ==> Normalize(loaded[j].barcode) != k;
      assert m == i;
    }
  }

  // ----- Totals -----

  lemma {:induction false} TotalAppend(a: seq<CartLine>, b: seq<CartLine>)
    ensures Total(a + b) == Total(a) + Total(b)
    decreases |a|
  {
    if a == [] {
      assert a + b == b;
    } else {
      assert (a + b)[0] == a[0];
      assert (a + b)[1..] == a[1..] + b;
      TotalAppend(a[1..], b);
    }
  }

  /** Replacing one line changes the total by the difference of the two
      subtotals. */
  lemma TotalUpdate(cart: seq<CartLine>, i: nat, l: CartLine)
    requires i < |cart|
    ensures Total(cart[i := l]) == Total(cart) - SubTotal(cart[i]) + SubTotal(l)
  {
    var pre, post := cart[..i], cart[i + 1..];
    assert cart == pre + ([cart[i]] + post);
    assert cart[i := l] == pre + ([l] + post);
    TotalAppend(pre, [cart[i]] + post);
    TotalAppend(pre, [l] + post);
    assert Total([cart[i]] + post) == SubTotal(cart[i]) + Total(post);
    assert Total([l] + post) == SubTotal(l) + Total(post);
  }

  /** Dropping one line lowers the total by its subtotal. */
  lemma TotalRemove(cart: seq<CartLine>, i: nat)
    requires i < |cart|
    ensures Total(cart[..i] + cart[i + 1..]) == Total(cart) - SubTotal(cart[i])
  {
    var pre, post := cart[..i], cart[i + 1..];
    assert cart == pre + ([cart[i]] + post);
    TotalAppend(pre, [cart[i]] + post);
    TotalAppend(pre, post);
    assert Total([cart[i]] + post) == SubTotal(cart[i]) + Total(post);
  }

  /** Adding `qty` units raises the cart total by `qty` times the price the
      units are charged at. */
  lemma AddToCartTotal(cart: seq<CartLine>, p: Product, qty: int)
    ensures Total(AddToCart(cart, p, qty)) == Total(cart) + Amount(LinePrice(cart, p), qty)
  {
    match FindLine(cart, p.barcode)
    case None =>
      TotalAppend(cart, [CartLine(p.barcode, p.name, p.price, qty)]);
    case Some(i) =>
      TotalUpdate(cart, i, cart[i].(quantity := cart[i].quantity + qty));
      AmountAdd(cart[i].price, cart[i].quantity, qty);
  }

  // ----- Quantities per barcode -----

  /** What one line contributes to the units of `barcode`. */
  function Units(l: CartLine, barcode: string): int {
    if Matches(l, barcode) then l.quantity else 0
  }

  lemma {:induction false} QuantityOfAppend(a: seq<CartLine>, b: seq<CartLine>, barcode: string)
    ensures QuantityOf(a + b, barcode) == QuantityOf(a, barcode) + QuantityOf(b, barcode)
    decreases |a|
  {
    if a == [] {
      assert a + b == b;
    } else {
      assert (a + b)[0] == a[0];
      assert (a + b)[1..] == a[1..] + b;
      QuantityOfAppend(a[1..], b, barcode);
    }
  }

  /** The units of a cart are those before line `i`, line `i`'s own and
      those after it. */
  lemma QuantityOfSplit(cart: seq<CartLine>, i: nat, barcode: string)
    requires i < |cart|
    ensures QuantityOf(cart, barcode)
      == QuantityOf(cart[..i], barcode) + Units(cart[i], barcode) + QuantityOf(cart[i + 1..], barcode)
  {
    assert cart == cart[..i] + ([cart[i]] + cart[i + 1..]);
    QuantityOfAppend(cart[..i], [cart[i]] + cart[i + 1..], barcode);
    assert ([cart[i]] + cart[i + 1..])[1..] == cart[i + 1..];
  }

  lemma QuantityOfReplace(cart: seq<CartLine>, i: nat, l: CartLine, barcode: string)
    requires i < |cart|
    ensures QuantityOf(cart[i := l], barcode) == QuantityOf(cart, barcode) - Units(cart[i], barcode) + Units(l, barcode)
  {
    QuantityOfSplit(cart, i, barcode);
    QuantityOfSplit(cart[i := l], i, barcode);
    assert cart[i := l][..i] == cart[..i];
    assert cart[i := l][i + 1..] == cart[i + 1..];
  }

  lemma QuantityOfRemove(cart: seq<CartLine>, i: nat, barcode: string)
    requires i < |cart|
    ensures QuantityOf(cart[..i] + cart[i + 1..], barcode) == QuantityOf(cart, barcode) - Units(cart[i], barcode)
  {
    QuantityOfSplit(cart, i, barcode);
    QuantityOfAppend(cart[..i], cart[i + 1..], barcode);
  }

  lemma {:induction false} QuantityOfAbsent(cart: seq<CartLine>, barcode: string)
    requires forall j :: 0 <= j < |cart| ==> !Matches(cart[j], barcode)
    ensures QuantityOf(cart, barcode) == 0
    decreases |cart|
  {
    if cart != [] {
      assert forall j :: 0 <= j < |cart[1..]| ==> cart[1..][j] == cart[j + 1];
      QuantityOfAbsent(cart[1..], barcode);
    }
  }

  /** In a cart with one line per barcode, the units of a barcode are the
      quantity of the line `FindLine` returns, or none. */
  lemma QuantityOfUnique(cart: seq<CartLine>, barcode: string)
    requires Unique(cart)
    ensures QuantityOf(cart, barcode) == match FindLine(cart, barcode)
      case None => 0
      case Some(i) => cart[i].quantity
  {
    match FindLine(cart, barcode)
    case None =>
      QuantityOfAbsent(cart, barcode);
    case Some(i) =>
      QuantityOfSplit(cart, i, barcode);
      QuantityOfAbsent(cart[..i], barcode);
      var tail := cart[i + 1..];
      forall j | 0 <= j < |tail| ensures !Matches(tail[j], barcode) {
        assert tail[j] == cart[i + 1 + j];
      }
      QuantityOfAbsent(tail, barcode);
  }

  /** Adding `qty` units of a product raises the units held for its
      barcode by `qty` and leaves every other barcode's units alone. */
  lemma AddToCartQuantities(cart: seq<CartLine>, p: Product, qty: int, barcode: string)
    ensures QuantityOf(AddToCart(cart, p, qty), barcode)
      == QuantityOf(cart, barcode) + (if Normalize(barcode) == Normalize(p.barcode) then qty else 0)
  {
    match FindLine(cart, p.barcode)
    case None =>
      var l := CartLine(p.barcode, p.name, p.price, qty);
      QuantityOfAppend(cart, [l], barcode);
      assert [l][1..] == [];
    case Some(i) =>
      QuantityOfReplace(cart, i, cart[i].(quantity := cart[i].quantity + qty), barcode);
  }

  /** In a cart with one line per barcode, taking `q` units off `key`
      leaves that barcode with `q` fewer units, never fewer than none, and
      every other barcode with the units it had. */
  lemma TakeOffQuantities(cart: seq<CartLine>, key: string, q: int, barcode: string)
    requires Unique(cart) && q >= 0
    ensures QuantityOf(TakeOff(cart, key, q), barcode) ==
      if Normalize(barcode) == Normalize(key) then
        (if QuantityOf(cart, barcode) - q <= 0 then 0 else QuantityOf(cart, barcode) - q)
      else QuantityOf(cart, barcode)
  {
    match FindLine(cart, key)
    case None =>
      if Normalize(barcode) == Normalize(key) {
        QuantityOfAbsent(cart, barcode);
      }
    case Some(i) =>
      TakeOffLine(cart, key, i, q, barcode);
      if Normalize(barcode) == Normalize(key) {
        QuantityOfUnique(cart, barcode);
        assert FindLine(cart, barcode) == Some(i);
      }
  }

  /** Taking `q` units off line `i` changes the units of `barcode` by what
      that line contributes before and after. */
  lemma TakeOffLine(cart: seq<CartLine>, key: string, i: nat, q: int, barcode: string)
    requires FindLine(cart, key) == Some(i)
    ensures QuantityOf(TakeOff(cart, key, q), barcode) == QuantityOf(cart, barcode) - Units(cart[i], barcode)
      + (if cart[i].quantity - q <= 0 then 0 else Units(cart[i].(quantity := cart[i].quantity - q), barcode))
  {
    var l := cart[i].(quantity := cart[i].quantity - q);
    if cart[i].quantity - q <= 0 {
      assert TakeOff(cart, key, q) == cart[..i] + cart[i + 1..];
      QuantityOfRemove(cart, i, barcode);
    } else {
      assert TakeOff(cart, key, q) == cart[i := l];
      QuantityOfReplace(cart, i, l, barcode);
    }
  }

  /** Undo, in terms of units per barcode: the undone entry's units come
      off its barcode (never below none) and nothing else changes. */
  lemma UndoQuantities(s: Session, barcode: string)
    requires Unique(s.cart) && s.history != []
    requires s.history[|s.history| - 1].quantity >= 0
    ensures var last := s.history[|s.history| - 1];
      QuantityOf(UndoSale(s).cart, barcode) ==
        if Normalize(barcode) == Normalize(last.barcode) then
          (if QuantityOf(s.cart, barcode) - last.quantity <= 0 then 0 else QuantityOf(s.cart, barcode) - last.quantity)
        else QuantityOf(s.cart, barcode)
  {
    var last := s.history[|s.history| - 1];
    TakeOffQuantities(s.cart, last.barcode, last.quantity, barcode);
  }

  // ----- Add and undo -----

  /** Two carts whose lines carry the same barcodes, position by position,
      find the same line for every barcode. */
  lemma FindLineSameBarcodes(a: seq<CartLine>, b: seq<CartLine>, barcode: string)
    requires |a| == |b|
    requires forall j :: 0 <= j < |a| ==> a[j].barcode == b[j].barcode
    ensures FindLine(a, barcode) == FindLine(b, barcode)
  {
    var fa := FindLine(a, barcode);
    var fb := FindLine(b, barcode);
    if fa.Some? {
      assert Matches(b[fa.value], barcode);
    }
    if fb.Some? {
      assert Matches(a[fb.value], barcode);
    }
  }

  /** Taking off the units just added restores the cart, provided every
      line already held at least one unit. */
  lemma AddThenTakeOff(cart: seq<CartLine>, p: Product, qty: int)
    requires Positive(cart)
    ensures TakeOff(AddToCart(cart, p, qty), p.barcode, qty) == cart
  {
    var c := AddToCart(cart, p, qty);
    match FindLine(cart, p.barcode)
    case None =>
      assert FindLine(c, p.barcode) == Some(|cart|);
      assert c[..|cart|] + c[|cart| + 1..] == cart;
    case Some(i) =>
      FindLineSameBarcodes(cart, c, p.barcode);
      assert c[i := c[i].(quantity := c[i].quantity - qty)] == cart;
  }

  /** Undo is the inverse of a successful sell: with every line holding at
      least one unit, selling and then undoing restores both the cart and
      the history. */
  lemma SellThenUndo(s: Session, cache: map<string, Product>, input: string, qty: int)
    requires Positive(s.cart)
    ensures SellProduct(s, cache, input, qty).0 == Added ==> UndoSale(SellProduct(s, cache, input, qty).1) == s
  {
    var r := SellProduct(s, cache, input, qty);
    if r.0 == Added {
      var p := cache[Normalize(input)];
      assert r.1.history[..|r.1.history| - 1] == s.history;
      assert r.1.history[|r.1.history| - 1] == CartLine(p.barcode, p.name, p.price, qty);
      AddThenTakeOff(s.cart, p, qty);
    }
  }
}
