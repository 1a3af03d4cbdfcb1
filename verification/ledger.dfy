/** The stock phase and the bookkeeping of `FinalizeTransactionAsync`: one
    SQLite transaction that checks and decrements every item in turn, then
    writes one Transactions header and one Sales row per item, and rolls
    everything back on the first failure. The database is a `Store` value;
    a rollback hands back the store it was given. */
module Ledger {
  import opened Wrappers
  import opened ProductTable

  /** `SaleItemDto`: what the cart hands to the ledger for one line. */
  datatype SaleItem = SaleItem(barcode: string, name: string, quantity: int, price: Money)

  /** One row of the Transactions table. `timestamp` stands for the
      `DateTime` the caller passes in. */
  datatype Header = Header(
    id: nat,
    timestamp: int,
    userId: int,
    customerName: string,
    paymentMethod: string,
    paymentRef: string,
    total: Money,
    paid: Money,
    change: Money,
    discount: Money)

  /** One row of the Sales table. */
  datatype SaleRow = SaleRow(
    transactionId: nat,
    barcode: string,
    productName: string,
    quantity: int,
    unitPrice: Money,
    total: Money,
    saleDate: int)

  /** The three tables the transaction touches. */
  datatype Store = Store(products: Table, headers: seq<Header>, sales: seq<SaleRow>)

  /** The exceptions `FinalizeTransactionAsync` throws, one per message. */
  datatype TxError =
    | NoItems
    | ItemNotFound(name: string)
    | ItemOutOfStock(name: string, requested: int)
    | ItemShort(name: string, available: int, requested: int)

  /** Result of one finalisation: the store afterwards and either the new
      transaction id or the error that caused the rollback. */
  datatype TxOutcome = TxOutcome(store: Store, result: Result<nat, TxError>)

  /** Total quantity the items request of barcode `b`. */
  function Demand(items: seq<SaleItem>, b: string): int {
    if items == [] then 0
    else (if items[0].barcode == b then items[0].quantity else 0) + Demand(items[1..], b)
  }

  /** No item refers to barcode `b`. */
  predicate Untouched(items: seq<SaleItem>, b: string) {
    forall i :: 0 <= i < |items| ==> items[i].barcode != b
  }

  /** The stock item `i` finds when its turn comes: the stored quantity
      less what the items before it already took. */
  function Available(t: Table, items: seq<SaleItem>, i: nat): int
    requires i < |items| && items[i].barcode in t
  {
    t[items[i].barcode].quantity - Demand(items[..i], items[i].barcode)
  }

  /** Item `i` finds its barcode and enough running stock: more than zero
      and at least the requested quantity. */
  predicate ItemAdmissible(t: Table, items: seq<SaleItem>, i: nat)
    requires i < |items|
  {
    items[i].barcode in t && Available(t, items, i) > 0 && Available(t, items, i) >= items[i].quantity
  }

  /** Every item, in order, is admissible. */
  predicate Admissible(t: Table, items: seq<SaleItem>) {
    forall i :: 0 <= i < |items| ==> ItemAdmissible(t, items, i)
  }

  /** The exception an inadmissible item raises: "Product not found" for a
      missing barcode, "out of stock" when its running stock is zero or
      less, and "only N available" when the stock is positive but short. */
  function Refusal(t: Table, items: seq<SaleItem>, i: nat): TxError
    requires i < |items| && !ItemAdmissible(t, items, i)
  {
    var item := items[i];
    if item.barcode !in t then ItemNotFound(item.name)
    else if Available(t, items, i) <= 0 then ItemOutOfStock(item.name, item.quantity)
    else ItemShort(item.name, Available(t, items, i), item.quantity)
  }

  /** The loop stopped at item `i` with error `e`: every earlier item was
      admissible, item `i` is not, and `e` is its refusal. */
  predicate RefusedAt(t: Table, items: seq<SaleItem>, i: nat, e: TxError) {
    && i < |items|
    && (forall j :: 0 <= j < i ==> ItemAdmissible(t, items, j))
    && !ItemAdmissible(t, items, i)
    && e == Refusal(t, items, i)
  }

  /** The first loop of `FinalizeTransactionAsync`: for each item, look the
      barcode up exactly, refuse when it is missing, out of stock or short,
      otherwise subtract the quantity. The first refusal ends the loop. */
  function CheckAndDecrement(t: Table, items: seq<SaleItem>): (r: Result<Table, TxError>)
    ensures r.Success? ==> r.value.Keys == t.Keys
    ensures r.Success? ==> forall b :: b in t ==>
      r.value[b] == t[b].(quantity := t[b].quantity - Demand(items, b))
    ensures r.Success? ==> forall b :: b in t && Untouched(items, b) ==> r.value[b] == t[b]
    ensures r.Success? ==> forall i :: 0 <= i < |items| ==>
      items[i].barcode in t && r.value[items[i].barcode].quantity >= 0
    ensures r.Failure? ==> r.error != NoItems
    ensures r.Failure? ==> exists i: nat :: RefusedAt(t, items, i, r.error)
    decreases |items|
  {
    if items == [] then Success(t)
    else
      var item := items[0];
      if item.barcode !in t then
        RefusedFirst(t, items);
        Failure(ItemNotFound(item.name))
      else
        var current := t[item.barcode].quantity;
        if current <= 0 then
          RefusedFirst(t, items);
          Failure(ItemOutOfStock(item.name, item.quantity))
        else if current < item.quantity then
          RefusedFirst(t, items);
          Failure(ItemShort(item.name, current, item.quantity))
        else
          var t' := t[item.barcode := t[item.barcode].(quantity := current - item.quantity)];
          var r := CheckAndDecrement(t', items[1..]);
          if r.Success? then
            assert forall i :: 1 <= i < |items| ==> items[i] == items[1..][i - 1];
            assert forall b :: b in t && Untouched(items, b) ==> Untouched(items[1..], b);
            Success(r.value)
          else
            RefusedLater(t, t', items, r.error);
            r
  }

  /** An item refused by the stored stock is refused first. */
  lemma RefusedFirst(t: Table, items: seq<SaleItem>)
    requires items != []
    requires !(items[0].barcode in t && t[items[0].barcode].quantity > 0
               && t[items[0].barcode].quantity >= items[0].quantity)
    ensures RefusedAt(t, items, 0, Refusal(t, items, 0))
  {
    assert items[..0] == [];
  }

  /** A refusal of the remaining items, after the first item took its
      units, is a refusal of the whole list one position later. */
  lemma RefusedLater(t: Table, t': Table, items: seq<SaleItem>, e: TxError)
    requires items != [] && items[0].barcode in t
    requires t[items[0].barcode].quantity > 0 && t[items[0].barcode].quantity >= items[0].quantity
    requires t' == t[items[0].barcode := t[items[0].barcode].(quantity := t[items[0].barcode].quantity - items[0].quantity)]
    requires exists k: nat :: RefusedAt(t', items[1..], k, e)
    ensures exists i: nat :: RefusedAt(t, items, i, e)
  {
    var k: nat :| RefusedAt(t', items[1..], k, e);
    assert items[..0] == [];
    assert ItemAdmissible(t, items, 0);
    forall j | 1 <= j <= k + 1 && items[j].barcode in t
      ensures Available(t', items[1..], j - 1) == Available(t, items, j)
    {
      AvailableShift(t, items, j);
    }
    forall j | 0 <= j < k + 1 ensures ItemAdmissible(t, items, j) {
      if j > 0 {
        assert items[1..][j - 1] == items[j];
        assert ItemAdmissible(t', items[1..], j - 1);
      }
    }
    assert items[1..][k] == items[k + 1];
    assert RefusedAt(t, items, k + 1, e);
  }

  /** The running stock of the items after the first one, taken from the
      table the first decrement left, is the running stock of the whole. */
  lemma AvailableShift(t: Table, items: seq<SaleItem>, i: nat)
    requires 1 <= i < |items| && items[0].barcode in t && items[i].barcode in t
    ensures var t' := t[items[0].barcode := t[items[0].barcode].(quantity := t[items[0].barcode].quantity - items[0].quantity)];
      Available(t', items[1..], i - 1) == Available(t, items, i)
  {
    assert items[..i][1..] == items[1..][..i - 1];
    assert items[..i][0] == items[0];
  }

  /** The stock check succeeds exactly when every item is admissible, and
      succeeds or fails without regard to anything else. */
  lemma {:induction false} CheckSucceedsIffAdmissible(t: Table, items: seq<SaleItem>)
    ensures CheckAndDecrement(t, items).Success? <==> Admissible(t, items)
    decreases |items|
  {
    if items != [] {
      var item := items[0];
      assert items[..0] == [];
      if item.barcode in t && t[item.barcode].quantity > 0 && t[item.barcode].quantity >= item.quantity {
        var t' := t[item.barcode := t[item.barcode].(quantity := t[item.barcode].quantity - item.quantity)];
        CheckSucceedsIffAdmissible(t', items[1..]);
        AdmissibleShift(t, t', items);
      } else {
        assert !ItemAdmissible(t, items, 0);
      }
    }
  }

  /** Once the first item is admissible and has taken its units, the rest
      is admissible against the new table exactly when the whole list is
      admissible against the old one. */
  lemma AdmissibleShift(t: Table, t': Table, items: seq<SaleItem>)
    requires items != [] && items[0].barcode in t
    requires t[items[0].barcode].quantity > 0 && t[items[0].barcode].quantity >= items[0].quantity
    requires t' == t[items[0].barcode := t[items[0].barcode].(quantity := t[items[0].barcode].quantity - items[0].quantity)]
    ensures Admissible(t', items[1..]) <==> Admissible(t, items)
  {
    assert items[..0] == [];
    assert ItemAdmissible(t, items, 0);
    forall j | 1 <= j < |items|
      ensures ItemAdmissible(t', items[1..], j - 1) <==> ItemAdmissible(t, items, j)
    {
      assert items[1..][j - 1] == items[j];
      if items[j].barcode in t {
        AvailableShift(t, items, j);
      }
    }
    if Admissible(t', items[1..]) {
      forall i | 0 <= i < |items| ensures ItemAdmissible(t, items, i) {
        if i > 0 {
          assert ItemAdmissible(t', items[1..], i - 1);
        }
      }
    }
    if Admissible(t, items) {
      forall j | 0 <= j < |items[1..]| ensures ItemAdmissible(t', items[1..], j) {
        assert ItemAdmissible(t, items, j + 1);
      }
    }
  }

  /** With pairwise distinct barcodes — as a cart supplies them — the check
      succeeds exactly when each item's product exists and holds more than
      zero and at least the requested quantity. */
  lemma DistinctCheck(t: Table, items: seq<SaleItem>)
    requires forall i, j :: 0 <= i < j < |items| ==> items[i].barcode != items[j].barcode
    ensures CheckAndDecrement(t, items).Success? <==>
      forall i :: 0 <= i < |items| ==>
        items[i].barcode in t && t[items[i].barcode].quantity > 0 && t[items[i].barcode].quantity >= items[i].quantity
  {
    CheckSucceedsIffAdmissible(t, items);
    forall i | 0 <= i < |items| ensures Demand(items[..i], items[i].barcode) == 0 {
      DemandUntouched(items[..i], items[i].barcode);
    }
  }

  /** Items that never mention `b` demand none of it. */
  lemma {:induction false} DemandUntouched(items: seq<SaleItem>, b: string)
    requires Untouched(items, b)
    ensures Demand(items, b) == 0
    decreases |items|
  {
    if items != [] {
      assert forall i :: 0 <= i < |items[1..]| ==> items[1..][i] == items[i + 1];
      DemandUntouched(items[1..], b);
    }
  }

  /** One Sales row per item, in item order, each totalling unit price ×
      quantity. */
  function SaleRows(id: nat, items: seq<SaleItem>, timestamp: int): (rows: seq<SaleRow>)
    ensures |rows| == |items|
    ensures forall i :: 0 <= i < |items| ==>
      rows[i].transactionId == id && rows[i].barcode == items[i].barcode
      && rows[i].productName == items[i].name && rows[i].quantity == items[i].quantity
      && rows[i].unitPrice == items[i].price && rows[i].saleDate == timestamp
      && rows[i].total == Amount(rows[i].unitPrice, rows[i].quantity)
  {
    seq(|items|, i requires 0 <= i < |items| =>
      SaleRow(id, items[i].barcode, items[i].name, items[i].quantity, items[i].price,
              Amount(items[i].price, items[i].quantity), timestamp))
  }

  /** Sum of the `Total` column over some Sales rows. */
  function RowsTotal(rows: seq<SaleRow>): Money {
    if rows == [] then 0.0 else rows[0].total + RowsTotal(rows[1..])
  }

  /** `FinalizeTransactionAsync`: no items throw before anything is opened;
      a failed stock check rolls back; otherwise the decremented stock, one
      header with the next id and one row per item are committed together. */
  function FinalizeTransaction(s: Store, timestamp: int, userId: int, customerName: string,
                               paymentMethod: string, paymentRef: string,
                               total: Money, paid: Money, change: Money, discount: Money,
                               items: seq<SaleItem>): (o: TxOutcome)
    ensures o.result.Failure? ==> o.store == s
    ensures items == [] ==> o.result == Failure(NoItems)
    ensures o.result.Success? ==> items != [] && CheckAndDecrement(s.products, items).Success?
    ensures items != [] && CheckAndDecrement(s.products, items).Success? ==> o.result.Success?
    ensures items != [] && o.result.Failure? ==>
      CheckAndDecrement(s.products, items).Failure? && o.result.error == CheckAndDecrement(s.products, items).error
    ensures o.result.Success? ==>
      && o.result.value == |s.headers| + 1
      && o.store.products == CheckAndDecrement(s.products, items).value
      && o.store.headers == s.headers + [Header(o.result.value, timestamp, userId, customerName,
                                                 paymentMethod, paymentRef, total, paid, change, discount)]
      && |o.store.sales| == |s.sales| + |items|
      && o.store.sales[..|s.sales|] == s.sales
      && o.store.sales[|s.sales|..] == SaleRows(o.result.value, items, timestamp)
  {
    if items == [] then TxOutcome(s, Failure(NoItems))
    else
      match CheckAndDecrement(s.products, items)
      case Failure(e) => TxOutcome(s, Failure(e))
      case Success(products) =>
        var id := |s.headers| + 1;
        var header := Header(id, timestamp, userId, customerName, paymentMethod, paymentRef,
                             total, paid, change, discount);
        var rows := SaleRows(id, items, timestamp);
        assert (s.sales + rows)[..|s.sales|] == s.sales;
        assert (s.sales + rows)[|s.sales|..] == rows;
        TxOutcome(Store(products, s.headers + [header], s.sales + rows), Success(id))
  }

  /** Finalisation keeps the catalogue well formed, and never drives a
      non-negative stock below zero. */
  lemma FinalizeKeepsStock(s: Store, timestamp: int, userId: int, customerName: string,
                           paymentMethod: string, paymentRef: string,
                           total: Money, paid: Money, change: Money, discount: Money,
                           items: seq<SaleItem>)
    ensures var o := FinalizeTransaction(s, timestamp, userId, customerName, paymentMethod, paymentRef,
                                         total, paid, change, discount, items);
      && (Valid(s.products) ==> Valid(o.store.products))
      && ((forall b :: b in s.products ==> s.products[b].quantity >= 0) ==>
          forall b :: b in o.store.products ==> o.store.products[b].quantity >= 0)
  {
    var o := FinalizeTransaction(s, timestamp, userId, customerName, paymentMethod, paymentRef,
                                 total, paid, change, discount, items);
    if o.result.Success? {
      var t := s.products;
      var r := o.store.products;
      forall b | b in r ensures r[b].barcode == t[b].barcode && (t[b].quantity >= 0 ==> r[b].quantity >= 0) {
        if Untouched(items, b) {
          assert r[b] == t[b];
        } else {
          var i :| 0 <= i < |items| && items[i].barcode == b;
        }
      }
    }
  }

  /** Checkout re-validates: two sales of one product that each fit the
      stock on their own cannot both go through. With 5 in stock, selling 3
      commits and a second sale of 4 rolls back reporting 2 available. */
  lemma SequentialSalesCannotOversell()
    ensures var p := Product("x", "Widget", 1.0, 5, "General", "");
      var s := Store(map["x" := p], [], []);
      var first := FinalizeTransaction(s, 0, 1, "", "Cash", "", 3.0, 3.0, 0.0, 0.0, [SaleItem("x", "Widget", 3, 1.0)]);
      var second := FinalizeTransaction(first.store, 0, 1, "", "Cash", "", 4.0, 4.0, 0.0, 0.0, [SaleItem("x", "Widget", 4, 1.0)]);
      && first.result == Success(1)
      && first.store.products["x"].quantity == 2
      && second.result == Failure(ItemShort("Widget", 2, 4))
      && second.store == first.store
  {
    var p := Product("x", "Widget", 1.0, 5, "General", "");
    var s := Store(map["x" := p], [], []);
    var one := [SaleItem("x", "Widget", 3, 1.0)];
    assert one[1..] == [];
    var first := FinalizeTransaction(s, 0, 1, "", "Cash", "", 3.0, 3.0, 0.0, 0.0, one);
    assert first.store.products == map["x" := p.(quantity := 2)];
  }
}
