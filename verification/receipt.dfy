/** The arithmetic and text of `ReceiptGenerator.GenerateReceipt`: each
    item's amount, the running subtotal, VAT, the discounted total, whether
    a discount row is printed, and the payment line. The PDF layout around
    these values is not modelled. */
module Receipt {
  import opened Text
  import opened ProductTable
  import Cart

  /** `ReceiptItem`. */
  datatype ReceiptItem = ReceiptItem(name: string, qty: int, price: Money)

  /** `ReceiptItem.Total`: quantity × price, so an item with no units or no
      price costs nothing and a priced item with units is never negative. */
  function ItemTotal(it: ReceiptItem): (r: Money)
    ensures it.qty == 0 || it.price == 0.0 ==> r == 0.0
    ensures it.price >= 0.0 && it.qty >= 0 ==> r >= 0.0
    ensures it.price > 0.0 && it.qty > 0 ==> r > 0.0
  {
    Amount(it.price, it.qty)
  }

  /** Sum of the item amounts, item by item in order. */
  function Subtotal(items: seq<ReceiptItem>): Money {
    if items == [] then 0.0 else Subtotal(items[..|items| - 1]) + ItemTotal(items[|items| - 1])
  }

  /** The item loop of `GenerateReceipt`, which prints one row per item and
      accumulates the subtotal. */
  method ComputeSubtotal(items: seq<ReceiptItem>) returns (subtotal: Money)
    ensures subtotal == Subtotal(items)
  {
    subtotal := 0.0;
    var i := 0;
    while i < |items|
      invariant 0 <= i <= |items|
      invariant subtotal == Subtotal(items[..i])
    {
      assert items[..i + 1][..i] == items[..i];
      subtotal := subtotal + ItemTotal(items[i]);
      i := i + 1;
    }
    assert items[..|items|] == items;
  }

  /** The summary block: subtotal, VAT, the total after discount, whether a
      "Discount:" row appears, and the amount paid. */
  datatype Summary = Summary(subtotal: Money, vat: Money, total: Money, discountRow: bool, paid: Money)

  /** The summary of a receipt for `items` at `vatRate` with the given
      discount and payment. */
  function Summarize(items: seq<ReceiptItem>, vatRate: Money, discount: Money, paid: Money): (r: Summary)
    ensures r.subtotal == Subtotal(items)
    ensures r.vat == r.subtotal * vatRate
    ensures r.total == r.subtotal + r.vat - discount
    ensures vatRate == 0.0 ==> r.vat == 0.0 && r.total == r.subtotal - discount
    ensures r.discountRow <==> discount > 0.0
    ensures r.paid == paid
  {
    var subtotal := Subtotal(items);
    var vat := subtotal * vatRate;
    Summary(subtotal, vat, subtotal + vat - discount, discount > 0.0, paid)
  }

  const PaymentLabel := "Payment Method: "

  /** Whether the payment line carries the reference: the method is not
      "Cash" in any letter case, and the reference is not blank. */
  predicate ShowsReference(paymentMethod: string, paymentRef: string) {
    !EqualsIgnoreCase(paymentMethod, "Cash") && !IsBlank(paymentRef)
  }

  /** The payment line: the label, the method in capitals, and the
      reference in parentheses when it is shown. */
  function PaymentText(paymentMethod: string, paymentRef: string): (r: string)
    ensures |r| >= |PaymentLabel| + |paymentMethod|
    ensures r[..|PaymentLabel|] == PaymentLabel
    ensures forall i :: |PaymentLabel| <= i < |PaymentLabel| + |paymentMethod| ==>
      !IsLower(r[i]) && r[i] == UpperChar(paymentMethod[i - |PaymentLabel|])
    ensures ShowsReference(paymentMethod, paymentRef) ==>
      r[|PaymentLabel| + |paymentMethod|..] == " (Ref: " + paymentRef + ")"
    ensures !ShowsReference(paymentMethod, paymentRef) ==> |r| == |PaymentLabel| + |paymentMethod|
  {
    ToUpperSpec(paymentMethod);
    var upper := ToUpper(paymentMethod);
    var head := PaymentLabel + upper;
    assert head[..|PaymentLabel|] == PaymentLabel;
    assert forall i :: |PaymentLabel| <= i < |head| ==> head[i] == upper[i - |PaymentLabel|];
    if ShowsReference(paymentMethod, paymentRef) then
      var r := head + (" (Ref: " + paymentRef + ")");
      assert r[..|head|] == head && r[|head|..] == " (Ref: " + paymentRef + ")";
      r
    else head
  }

  /** Cash in any letter case never prints a reference. */
  lemma CashPrintsNoReference()
    ensures PaymentText("cash", "R-1") == "Payment Method: CASH"
  {
    ToUpperSpec("cash");
    ToUpperSpec("Cash");
    assert ToUpper("cash") == "CASH";
    assert ToUpper("Cash") == "CASH";
  }

  /** A card payment with a reference prints it. */
  lemma CardPrintsReference()
    ensures PaymentText("Card", "R-1") == "Payment Method: CARD (Ref: R-1)"
  {
    ToUpperSpec("Cash");
    ToUpperSpec("Card");
    assert ToUpper("Card") == "CARD";
    assert ToUpper("Card")[2] != ToUpper("Cash")[2];
    assert !IsWhite("R-1"[0]);
  }

  /** The receipt items checkout builds from the cart, line for line. */
  function FromCart(cart: seq<Cart.CartLine>): (items: seq<ReceiptItem>)
    ensures |items| == |cart|
    ensures forall i :: 0 <= i < |cart| ==>
      items[i] == ReceiptItem(cart[i].name, cart[i].quantity, cart[i].price)
  {
    if cart == [] then []
    else FromCart(cart[..|cart| - 1]) + [ReceiptItem(cart[|cart| - 1].name, cart[|cart| - 1].quantity, cart[|cart| - 1].price)]
  }

  /** The receipt's subtotal is the cart total. */
  lemma {:induction false} SubtotalOfCart(cart: seq<Cart.CartLine>)
    ensures Subtotal(FromCart(cart)) == Cart.Total(cart)
    decreases |cart|
  {
    if cart != [] {
      var n := |cart| - 1;
      var items := FromCart(cart);
      assert items[..n] == FromCart(cart[..n]);
      SubtotalOfCart(cart[..n]);
      assert cart == cart[..n] + [cart[n]];
      Cart.TotalAppend(cart[..n], [cart[n]]);
      assert [cart[n]][1..] == [];
    }
  }
}
