/** `SellControl.Checkout`: validate the cart and the payment fields,
    derive discount and change from the total and the amount paid, finalise
    the transaction, and on success clear cart and history. The receipt
    file write is an outcome passed in, since it is file I/O. */
module Checkout {
  import opened Wrappers
  import opened Text
  import opened ProductTable
  import opened Ledger
  import opened Cart
  import Receipt

  /** Discount and change of one sale. */
  datatype Settlement = Settlement(discount: Money, change: Money)

  /** A payment short of the total is booked as a discount of the
      shortfall; an overpayment is returned as change. */
  function Settle(total: Money, paid: Money): (r: Settlement)
    ensures r.discount >= 0.0 && r.change >= 0.0
    ensures r.discount == 0.0 || r.change == 0.0
    ensures total - r.discount + r.change == paid
  {
    if paid < total then Settlement(total - paid, 0.0) else Settlement(0.0, paid - total)
  }

  /** The three properties above determine discount and change: no other
      pair satisfies them. */
  lemma SettleDetermined(total: Money, paid: Money, d: Money, c: Money)
    requires d >= 0.0 && c >= 0.0 && (d == 0.0 || c == 0.0)
    requires total - d + c == paid
    ensures Settle(total, paid) == Settlement(d, c)
  {
    if paid < total {
      assert c == 0.0;
    } else {
      assert d == 0.0;
    }
  }

  /** The checkout panel's fields as the handler reads them. `paid` is the
      amount with thousands separators removed, or `None` when it does not
      parse; `selectedMethod` is the chosen payment method, if any. */
  datatype Form = Form(paid: Option<Money>, selectedMethod: Option<string>, paymentRef: string, customerName: string)

  /** Why a checkout did not complete. */
  datatype CheckoutError =
    | EmptyCart
    | InvalidAmount
    | NegativeAmount
    | MissingReference
    | Declined(reason: TxError)
    | ReceiptFailed(transactionId: nat)

  /** A validated checkout, ready to be finalised. */
  datatype Order = Order(total: Money, paid: Money, settlement: Settlement,
                         paymentMethod: string, paymentRef: string, customerName: string)

  /** A completed checkout: the transaction id and the amounts it recorded,
      and whether the receipt file was written. */
  datatype Completed = Completed(transactionId: nat, total: Money, paid: Money, settlement: Settlement,
                                 receiptWritten: bool)

  datatype CheckoutOutcome = CheckoutOutcome(session: Session, store: Store, result: Result<Completed, CheckoutError>)

  /** The method a missing selection stands for. */
  const DefaultMethod := "Cash"

  /** The validation half of `Checkout`, in the handler's order: an empty
      cart, an unparsable amount, a negative amount, then a non-cash method
      without a reference. */
  function Prepare(s: Session, f: Form): (r: Result<Order, CheckoutError>)
    ensures r == Failure(EmptyCart) <==> s.cart == []
    ensures r == Failure(InvalidAmount) <==> s.cart != [] && f.paid.None?
    ensures r == Failure(NegativeAmount) <==> s.cart != [] && f.paid.Some? && f.paid.value < 0.0
    ensures r == Failure(MissingReference) <==>
      s.cart != [] && f.paid.Some? && f.paid.value >= 0.0
      && f.selectedMethod.GetOr(DefaultMethod) != DefaultMethod && IsBlank(f.paymentRef)
    ensures r.Failure? ==> r.error in {EmptyCart, InvalidAmount, NegativeAmount, MissingReference}
    ensures r.Success? ==>
      && r.value.total == Total(s.cart)
      && r.value.paid == f.paid.value && r.value.paid >= 0.0
      && r.value.settlement == Settle(r.value.total, r.value.paid)
      && r.value.paymentMethod == f.selectedMethod.GetOr(DefaultMethod)
      && r.value.paymentRef == Trim(f.paymentRef)
      && r.value.customerName == Trim(f.customerName)
      && (r.value.paymentMethod != DefaultMethod ==> !IsBlank(r.value.paymentRef))
  {
    TrimSpec(f.paymentRef);
    if s.cart == [] then Failure(EmptyCart)
    else if f.paid.None? then Failure(InvalidAmount)
    else if f.paid.value < 0.0 then Failure(NegativeAmount)
    else
      var total := Total(s.cart);
      var paid := f.paid.value;
      var paymentMethod := f.selectedMethod.GetOr(DefaultMethod);
      var paymentRef := Trim(f.paymentRef);
      assert IsBlank(paymentRef) <==> paymentRef == [];
      if paymentMethod != DefaultMethod && IsBlank(paymentRef) then Failure(MissingReference)
      else Success(Order(total, paid, Settle(total, paid), paymentMethod, paymentRef, Trim(f.customerName)))
  }

  /** The `SaleItemDto` list built from the cart, line for line. */
  function Items(cart: seq<CartLine>): (items: seq<SaleItem>)
    ensures |items| == |cart|
    ensures forall i :: 0 <= i < |cart| ==>
      items[i] == SaleItem(cart[i].barcode, cart[i].name, cart[i].quantity, cart[i].price)
  {
    seq(|cart|, i requires 0 <= i < |cart| => SaleItem(cart[i].barcode, cart[i].name, cart[i].quantity, cart[i].price))
  }

  /** Finalise a validated order: the cart's lines go to the ledger with
      the order's amounts, and either everything is recorded under the next
      transaction id or nothing is. */
  function Commit(s: Session, store: Store, order: Order, userId: int, timestamp: int): (o: TxOutcome)
    ensures o.result.Failure? ==> o.store == store
    ensures o.result.Success? <==> s.cart != [] && CheckAndDecrement(store.products, Items(s.cart)).Success?
    ensures o.result.Failure? && s.cart == [] ==> o.result.error == NoItems
    ensures o.result.Failure? && s.cart != [] ==>
      CheckAndDecrement(store.products, Items(s.cart)).Failure?
      && o.result.error == CheckAndDecrement(store.products, Items(s.cart)).error
    ensures o.result.Success? ==>
      && o.result.value == |store.headers| + 1
      && o.store.headers == store.headers + [Header(|store.headers| + 1, timestamp, userId, order.customerName,
                                                     order.paymentMethod, order.paymentRef, order.total, order.paid,
                                                     order.settlement.change, order.settlement.discount)]
      && o.store.products == CheckAndDecrement(store.products, Items(s.cart)).value
      && o.store.sales == store.sales + SaleRows(|store.headers| + 1, Items(s.cart), timestamp)
  {
    FinalizeTransaction(store, timestamp, userId, order.customerName, order.paymentMethod, order.paymentRef,
                        order.total, order.paid, order.settlement.change, order.settlement.discount, Items(s.cart))
  }

  /** `Checkout` as the handler is written: once the transaction has been
      committed, a failure while writing the receipt lands in the same
      catch as a refused transaction, so the cart and history are kept
      although the sale is already recorded. */
  function CheckoutAsWritten(s: Session, store: Store, f: Form, userId: int, timestamp: int,
                             receiptWritten: bool): (o: CheckoutOutcome)
    ensures o.result.Failure? && !o.result.error.ReceiptFailed? ==> o.session == s && o.store == store
    ensures o.result.Success? ==> o.session == Session([], []) && o.result.value.receiptWritten
    ensures o.result.Failure? ==> o.session == s
    ensures Prepare(s, f).Success? && o.result.Failure? && !o.result.error.ReceiptFailed? ==>
      CheckAndDecrement(store.products, Items(s.cart)).Failure?
      && o.result.error == Declined(CheckAndDecrement(store.products, Items(s.cart)).error)
    ensures o.result.Failure? && o.result.error.ReceiptFailed? ==>
      && Prepare(s, f).Success?
      && CheckAndDecrement(store.products, Items(s.cart)).Success?
      && o.store.products == CheckAndDecrement(store.products, Items(s.cart)).value
      && |o.store.headers| == |store.headers| + 1
      && o.result.error.transactionId == |store.headers| + 1
    ensures o.result.Success? ==> Prepare(s, f).Success? && var order := Prepare(s, f).value;
      && o.result.value.total == order.total && o.result.value.paid == order.paid
      && o.result.value.settlement == order.settlement
      && o.result.value.transactionId == |store.headers| + 1
      && o.store.headers == store.headers + [Header(|store.headers| + 1, timestamp, userId, order.customerName,
                                                     order.paymentMethod, order.paymentRef, order.total, order.paid,
                                                     order.settlement.change, order.settlement.discount)]
      && CheckAndDecrement(store.products, Items(s.cart)).Success?
      && o.store.products == CheckAndDecrement(store.products, Items(s.cart)).value
      && o.store.sales == store.sales + SaleRows(|store.headers| + 1, Items(s.cart), timestamp)
  {
    match Prepare(s, f)
    case Failure(e) => CheckoutOutcome(s, store, Failure(e))
    case Success(order) =>
      var tx := Commit(s, store, order, userId, timestamp);
      match tx.result
      case Failure(e) => CheckoutOutcome(s, store, Failure(Declined(e)))
      case Success(id) =>
        assert tx.store.sales == store.sales + SaleRows(id, Items(s.cart), timestamp) by {
          assert tx.store.sales == tx.store.sales[..|store.sales|] + tx.store.sales[|store.sales|..];
        }
        if receiptWritten then
          CheckoutOutcome(Session([], []), tx.store, Success(Completed(id, order.total, order.paid, order.settlement, true)))
        else CheckoutOutcome(s, tx.store, Failure(ReceiptFailed(id)))
  }

  /** `Checkout` with the cart cleared as soon as the transaction commits,
      whether or not the receipt could be written. */
  function Checkout(s: Session, store: Store, f: Form, userId: int, timestamp: int,
                    receiptWritten: bool): (o: CheckoutOutcome)
    ensures o.result.Failure? ==> o.session == s && o.store == store
    ensures o.result.Failure? ==> !o.result.error.ReceiptFailed?
    ensures o.result.Success? ==> o.session == Session([], []) && o.result.value.receiptWritten == receiptWritten
    ensures o.store == store || o.session == Session([], [])
    ensures Prepare(s, f).Failure? ==> o.result == Failure(Prepare(s, f).error)
    ensures Prepare(s, f).Success? ==>
      (o.result.Success? <==> CheckAndDecrement(store.products, Items(s.cart)).Success?)
    ensures Prepare(s, f).Success? && o.result.Failure? ==>
      CheckAndDecrement(store.products, Items(s.cart)).Failure?
      && o.result.error == Declined(CheckAndDecrement(store.products, Items(s.cart)).error)
    ensures o.result.Success? ==> Prepare(s, f).Success? && var order := Prepare(s, f).value;
      && o.result.value.total == order.total && o.result.value.paid == order.paid
      && o.result.value.settlement == order.settlement
      && o.result.value.transactionId == |store.headers| + 1
      && o.store.headers == store.headers + [Header(|store.headers| + 1, timestamp, userId, order.customerName,
                                                     order.paymentMethod, order.paymentRef, order.total, order.paid,
                                                     order.settlement.change, order.settlement.discount)]
      && CheckAndDecrement(store.products, Items(s.cart)).Success?
      && o.store.products == CheckAndDecrement(store.products, Items(s.cart)).value
      && o.store.sales == store.sales + SaleRows(|store.headers| + 1, Items(s.cart), timestamp)
  {
    match Prepare(s, f)
    case Failure(e) => CheckoutOutcome(s, store, Failure(e))
    case Success(order) =>
      var tx := Commit(s, store, order, userId, timestamp);
      match tx.result
      case Failure(e) => CheckoutOutcome(s, store, Failure(Declined(e)))
      case Success(id) =>
        assert tx.store.sales == store.sales + SaleRows(id, Items(s.cart), timestamp) by {
          assert tx.store.sales == tx.store.sales[..|store.sales|] + tx.store.sales[|store.sales|..];
        }
        CheckoutOutcome(Session([], []), tx.store, Success(Completed(id, order.total, order.paid, order.settlement, receiptWritten)))
  }

  /** With one cart line per barcode, a validated checkout commits exactly
      when every line's product exists and holds more than zero and at
      least the line's quantity. */
  lemma CheckoutStockRule(s: Session, store: Store, f: Form, userId: int, timestamp: int, receiptWritten: bool)
    requires Unique(s.cart) && Prepare(s, f).Success?
    ensures Checkout(s, store, f, userId, timestamp, receiptWritten).result.Success? <==>
      forall i :: 0 <= i < |s.cart| ==>
        s.cart[i].barcode in store.products
        && store.products[s.cart[i].barcode].quantity > 0
        && store.products[s.cart[i].barcode].quantity >= s.cart[i].quantity
  {
    var items := Items(s.cart);
    forall i, j | 0 <= i < j < |items| ensures items[i].barcode != items[j].barcode {
      assert Normalize(s.cart[i].barcode) != Normalize(s.cart[j].barcode);
    }
    DistinctCheck(store.products, items);
  }

  /** The Sales rows of a cart add up to the cart total. */
  lemma {:induction false} RowsTotalOfCart(id: nat, cart: seq<CartLine>, timestamp: int)
    ensures RowsTotal(SaleRows(id, Items(cart), timestamp)) == Total(cart)
    decreases |cart|
  {
    if cart != [] {
      var rows := SaleRows(id, Items(cart), timestamp);
      var rest := SaleRows(id, Items(cart[1..]), timestamp);
      assert rows[1..] == rest;
      RowsTotalOfCart(id, cart[1..], timestamp);
    }
  }

  /** A completed checkout records the cart: the header's total is the
      cart total, its new Sales rows add up to that total, and total less
      discount plus change is what the customer paid. */
  lemma CheckoutRecordsCart(s: Session, store: Store, f: Form, userId: int, timestamp: int, receiptWritten: bool)
    ensures var o := Checkout(s, store, f, userId, timestamp, receiptWritten);
      o.result.Success? ==>
        && o.store.headers[|o.store.headers| - 1].total == Total(s.cart)
        && RowsTotal(o.store.sales[|store.sales|..]) == Total(s.cart)
        && o.result.value.total - o.result.value.settlement.discount + o.result.value.settlement.change
           == o.result.value.paid
  {
    var o := Checkout(s, store, f, userId, timestamp, receiptWritten);
    if o.result.Success? {
      var rows := SaleRows(|store.headers| + 1, Items(s.cart), timestamp);
      assert o.store.sales[|store.sales|..] == rows;
      RowsTotalOfCart(|store.headers| + 1, s.cart, timestamp);
    }
  }

  /** The receipt printed for a checkout, with no VAT and the discount the
      checkout derived, shows as total the smaller of the cart total and
      the amount paid. */
  lemma ReceiptTotalIsMin(cart: seq<CartLine>, paid: Money)
    ensures var st := Settle(Total(cart), paid);
      Receipt.Summarize(Receipt.FromCart(cart), 0.0, st.discount, paid).total
        == if paid < Total(cart) then paid else Total(cart)
  {
    Receipt.SubtotalOfCart(cart);
  }

  /** As written, when the receipt cannot be written after the
      sale is committed, the cart is kept, and checking out again records
      the same cart a second time. A product with 10 in stock and a cart of
      2 ends with 6 in stock and two transactions. */
  lemma ReceiptFailureDoubleSells()
    ensures var p := Product("x", "Widget", 2.0, 10, "General", "");
      var store := Store(map["x" := p], [], []);
      var line := CartLine("x", "Widget", 2.0, 2);
      var s := Session([line], [line]);
      var f := Form(Some(4.0), Some("Cash"), "", "");
      var first := CheckoutAsWritten(s, store, f, 1, 0, false);
      var second := CheckoutAsWritten(first.session, first.store, f, 1, 0, true);
      && first.result == Failure(ReceiptFailed(1))
      && first.session == s
      && first.store.products["x"].quantity == 8
      && second.result.Success?
      && second.store.products["x"].quantity == 6
      && |second.store.headers| == 2
  {
    var p := Product("x", "Widget", 2.0, 10, "General", "");
    var store := Store(map["x" := p], [], []);
    var line := CartLine("x", "Widget", 2.0, 2);
    var s := Session([line], [line]);
    var items := Items(s.cart);
    assert items == [SaleItem("x", "Widget", 2, 2.0)];
    assert items[1..] == [];
    assert Total(s.cart) == 4.0 by {
      assert s.cart[1..] == [];
    }
  }

  /** The corrected checkout never records a sale while keeping its cart:
      after a commit the cart is empty, so a retry has nothing to sell. */
  lemma CommitClearsCart(s: Session, store: Store, f: Form, userId: int, timestamp: int, receiptWritten: bool)
    ensures var o := Checkout(s, store, f, userId, timestamp, receiptWritten);
      |o.store.headers| > |store.headers| ==> o.session.cart == [] && o.session.history == []
    ensures var o := Checkout(s, store, f, userId, timestamp, receiptWritten);
      Checkout(o.session, o.store, f, userId, timestamp, receiptWritten).result == Failure(EmptyCart)
      || o.session == s
  {
  }

  /** Selling checks only the quantity being added against stock, so two
      adds of 3 from a stock of 5 both go into the cart; checkout then
      refuses the line of 6, reporting 5 available, and records nothing. */
  lemma CartCanExceedStock()
    ensures var p := Product("x", "Widget", 1.0, 5, "General", "");
      var cache := map["x" := p];
      var one := SellProduct(Session([], []), cache, "x", 3);
      var two := SellProduct(one.1, cache, "x", 3);
      var store := Store(map["x" := p], [], []);
      var o := Checkout(two.1, store, Form(Some(6.0), None, "", ""), 1, 0, true);
      && one.0 == Added && two.0 == Added
      && two.1.cart == [CartLine("x", "Widget", 1.0, 6)]
      && o.result == Failure(Declined(ItemShort("Widget", 5, 6)))
      && o.store == store
  {
    var p := Product("x", "Widget", 1.0, 5, "General", "");
    assert Normalize("x") == "x" by {
      assert TrimStart("x") == "x";
      assert TrimEnd("x") == "x";
      ToLowerSpec("x");
    }
    var cache := map["x" := p];
    var one := SellProduct(Session([], []), cache, "x", 3);
    assert !IsBlank("x") by {
      assert !IsWhite("x"[0]);
    }
    assert one.1.cart == [CartLine("x", "Widget", 1.0, 3)];
    var two := SellProduct(one.1, cache, "x", 3);
    assert FindLine(one.1.cart, "x") == Some(0);
    assert two.1.cart == [CartLine("x", "Widget", 1.0, 6)];
    var items := Items(two.1.cart);
    assert items == [SaleItem("x", "Widget", 6, 1.0)];
  }
}
