/** The cart and checkout views of payments/views.py as transitions of the
    session: the cart dictionary, the payment currency the visitor picked
    and the id of the order awaiting payment. A view that answers 404 (or
    fails on a cart key whose item no longer exists) leaves the session as
    it was; the model returns the failure instead. */
module Views {
  import opened Wrappers
  import opened IntMath
  import opened Conversion
  import opened SessionCart
  import opened Models

  /** The items the database holds, by primary key. */
  type Catalog = map<ItemId, Item>

  /** The session keys "cart", "payment_currency" and "pending_order_id";
      an absent key is `None` (for the cart, the empty cart). */
  datatype Session = Session(cart: Cart, paymentCurrency: Option<string>, pendingOrderId: Option<nat>)

  /** What the views keep true of every session they write: positive
      quantities and a payment currency, when set, of "usd" or "eur". */
  predicate Valid(s: Session)
  {
    && AllPositive(s.cart)
    && (s.paymentCurrency.Some? ==> s.paymentCurrency.value == USD || s.paymentCurrency.value == EUR)
  }

  /** add_to_cart: 404 for an unknown item; otherwise one more of it, the
      rest of the session untouched. */
  function AddToCart(catalog: Catalog, s: Session, id: ItemId): (r: Result<Session, ItemId>)
    ensures r.Failure? <==> id !in catalog
    ensures r.Success? ==>
              && Quantities(r.value.cart) == PutOne(Quantities(s.cart), id)
              && TotalQuantity(r.value.cart) == TotalQuantity(s.cart) + 1
              && r.value.paymentCurrency == s.paymentCurrency
              && r.value.pendingOrderId == s.pendingOrderId
    ensures r.Success? && Valid(s) ==> Valid(r.value)
  {
    if id !in catalog then Failure(id)
    else Success(s.(cart := AddOne(s.cart, id)))
  }

  /** remove_from_cart: the key is deleted when present, whether or not the
      item still exists. */
  function RemoveFromCart(s: Session, id: ItemId): (r: Session)
    ensures Quantities(r.cart) == Quantities(s.cart) - {id}
    ensures id !in Quantities(s.cart) ==> r == s
    ensures r.paymentCurrency == s.paymentCurrency && r.pendingOrderId == s.pendingOrderId
    ensures Valid(s) ==> Valid(r)
  {
    s.(cart := Remove(s.cart, id))
  }

  /** buy_now: 404 for an unknown item; otherwise the cart becomes exactly
      one of that item, whatever it held before. */
  function BuyNow(catalog: Catalog, s: Session, id: ItemId): (r: Result<Session, ItemId>)
    ensures r.Failure? <==> id !in catalog
    ensures r.Success? ==>
              && Quantities(r.value.cart) == map[id := 1]
              && TotalQuantity(r.value.cart) == 1
              && r.value.paymentCurrency == s.paymentCurrency
              && r.value.pendingOrderId == s.pendingOrderId
    ensures r.Success? && Valid(s) ==> Valid(r.value)
  {
    if id !in catalog then Failure(id)
    else
      var c: Cart := [Line(id, 1)];
      QuantitiesAt(c, 0);
      assert Sum([1]) == 1 by { assert [1][..0] == []; }
      assert QuantityList(c) == [1];
      Success(s.(cart := c))
  }

  /** update_cart_quantity: "increase" adds one, "decrease" takes one away
      and deletes the key at 0; an absent key or any other action leaves
      the session as it was. */
  function UpdateCartQuantity(s: Session, id: ItemId, action: string): (r: Session)
    ensures id !in Quantities(s.cart) || (action != "increase" && action != "decrease") ==> r == s
    ensures id in Quantities(s.cart) && action == "increase" ==>
              Quantities(r.cart) == PutOne(Quantities(s.cart), id)
    ensures id in Quantities(s.cart) && action == "decrease" ==>
              Quantities(r.cart) == TakeOneFrom(Quantities(s.cart), id)
    ensures r.paymentCurrency == s.paymentCurrency && r.pendingOrderId == s.pendingOrderId
    ensures Valid(s) ==> Valid(r)
  {
    if id in Quantities(s.cart) && action == "increase" then Increase(s, id)
    else if id in Quantities(s.cart) && action == "decrease" then TakeOne(s, id)
    else s
  }

  /** "increase" on a key the cart holds. */
  function Increase(s: Session, id: ItemId): (r: Session)
    requires id in Quantities(s.cart)
    ensures Quantities(r.cart) == PutOne(Quantities(s.cart), id)
    ensures r.paymentCurrency == s.paymentCurrency && r.pendingOrderId == s.pendingOrderId
    ensures Valid(s) ==> Valid(r)
  {
    s.(cart := AddOne(s.cart, id))
  }

  /** "decrease" on a key the cart holds. */
  function TakeOne(s: Session, id: ItemId): (r: Session)
    requires id in Quantities(s.cart)
    ensures Quantities(r.cart) == TakeOneFrom(Quantities(s.cart), id)
    ensures r.paymentCurrency == s.paymentCurrency && r.pendingOrderId == s.pendingOrderId
    ensures Valid(s) ==> Valid(r)
  {
    s.(cart := Decrease(s.cart, id))
  }

  /** change_currency: only "usd" and "eur" are stored. */
  function ChangeCurrency(s: Session, code: string): (r: Session)
    ensures r.cart == s.cart && r.pendingOrderId == s.pendingOrderId
    ensures code == USD || code == EUR ==> r.paymentCurrency == Some(code)
    ensures code != USD && code != EUR ==> r == s
    ensures Valid(s) ==> Valid(r)
  {
    if code == USD || code == EUR then s.(paymentCurrency := Some(code)) else s
  }

  /** success: the cart and the pending order are cleared only when an
      order is pending; the payment currency survives. */
  function PaymentSuccess(s: Session): (r: Session)
    ensures s.pendingOrderId.Some? ==> |r.cart| == 0 && r.pendingOrderId.None?
    ensures s.pendingOrderId.None? ==> r == s
    ensures r.paymentCurrency == s.paymentCurrency
    ensures Valid(s) ==> Valid(r)
  {
    if s.pendingOrderId.Some? then s.(cart := [], pendingOrderId := None) else s
  }

  /** The first cart key, in insertion order, whose item is missing from
      the catalog. */
  function FirstMissing(catalog: Catalog, c: seq<Line>): (r: Option<nat>)
    ensures r.None? <==> forall i :: 0 <= i < |c| ==> c[i].id in catalog
    ensures r.Some? ==> r.value < |c| && c[r.value].id !in catalog
    ensures r.Some? ==> forall i :: 0 <= i < r.value ==> c[i].id in catalog
  {
    if |c| == 0 then None
    else if c[0].id !in catalog then Some(0)
    else
      match FirstMissing(catalog, c[1..])
      case None => None
      case Some(j) => Some(j + 1)
  }

  /** An `OrderItem` row: the item and how many of it. */
  datatype OrderLine = OrderLine(item: Item, quantity: int)

  /** The order the checkout creates: its database id, its payment currency
      and one line per cart entry. */
  datatype PlacedOrder = PlacedOrder(id: nat, paymentCurrency: string, lines: seq<OrderLine>)

  datatype Checkout =
    | EmptyCart
    | MissingItem(id: ItemId)
    | Placed(order: PlacedOrder, session: Session)

  /** The order lines of a cart whose items all exist, in cart order. */
  function OrderLines(catalog: Catalog, c: seq<Line>): (ls: seq<OrderLine>)
    requires forall i :: 0 <= i < |c| ==> c[i].id in catalog
    ensures |ls| == |c|
    ensures forall i :: 0 <= i < |c| ==> ls[i].item == catalog[c[i].id] && ls[i].quantity == c[i].quantity
  {
    if |c| == 0 then []
    else [OrderLine(catalog[c[0].id], c[0].quantity)] + OrderLines(catalog, c[1..])
  }

  /** create_order_from_cart. An empty cart creates nothing. Otherwise an
      order (the database assigns `orderId`) in the stored payment currency
      or "usd", with one line per cart entry carrying its quantity; the
      cart is kept and the order is remembered as pending. A cart key whose
      item has gone makes the view fail. */
  function CreateOrderFromCart(catalog: Catalog, s: Session, orderId: nat): (r: Checkout)
    ensures r.EmptyCart? <==> |s.cart| == 0
    ensures r.MissingItem? ==> r.id in Quantities(s.cart) && r.id !in catalog
    ensures r.Placed? <==> |s.cart| > 0 && forall k :: k in Quantities(s.cart) ==> k in catalog
    ensures r.Placed? ==>
              && r.order.id == orderId
              && r.order.paymentCurrency == s.paymentCurrency.GetOr(USD)
              && |r.order.lines| == |s.cart|
              && (forall i :: 0 <= i < |s.cart| ==>
                    r.order.lines[i].item == catalog[s.cart[i].id] && r.order.lines[i].quantity == s.cart[i].quantity)
              && r.session.cart == s.cart
              && r.session.paymentCurrency == s.paymentCurrency
              && r.session.pendingOrderId == Some(orderId)
  {
    if |s.cart| == 0 then EmptyCart
    else
      match FirstMissing(catalog, s.cart)
      case Some(i) =>
        QuantitiesAt(s.cart, i);
        MissingItem(s.cart[i].id)
      case None =>
        assert forall k :: k in Quantities(s.cart) ==> k in catalog by {
          forall k | k in Quantities(s.cart) ensures k in catalog {
            var j := KeyPosition(s.cart, k);
          }
        }
        var order := PlacedOrder(orderId, s.paymentCurrency.GetOr(USD), OrderLines(catalog, s.cart));
        Placed(order, s.(pendingOrderId := Some(orderId)))
  }

  /** A checkout followed by a successful payment empties the cart and
      forgets the pending order. */
  lemma CheckoutThenSuccess(catalog: Catalog, s: Session, orderId: nat)
    requires CreateOrderFromCart(catalog, s, orderId).Placed?
    ensures var after := PaymentSuccess(CreateOrderFromCart(catalog, s, orderId).session);
            |after.cart| == 0 && after.pendingOrderId.None? && after.paymentCurrency == s.paymentCurrency
  {
  }

  /** The order carries as many units as the cart counted. */
  lemma {:induction false} OrderLinesTotal(catalog: Catalog, c: seq<Line>)
    requires forall i :: 0 <= i < |c| ==> c[i].id in catalog
    ensures Sum(seq(|c|, i requires 0 <= i < |c| => OrderLines(catalog, c)[i].quantity)) == TotalQuantity(c)
  {
    var ls := OrderLines(catalog, c);
    assert seq(|c|, i requires 0 <= i < |c| => ls[i].quantity) == QuantityList(c);
  }

  /** One row of the cart page. */
  datatype CartRow = CartRow(item: Item, quantity: int, subtotal: int, originalCurrency: string, converted: bool)

  /** The cart page: its rows, their total in `currency`, and the number of
      units in the cart. */
  datatype CartPage = CartPage(rows: seq<CartRow>, total: int, currency: string, count: int)

  /** Python truthiness of an optional string: present and non-empty. */
  predicate Truthy(x: Option<string>)
  {
    x.Some? && x.value != ""
  }

  /** The page's `display_currency`: present exactly when a currency was
      chosen or the cart has an entry; it is one of those two, and a chosen
      currency takes precedence. */
  function DisplayCurrency(catalog: Catalog, s: Session): (d: Option<string>)
    requires |s.cart| > 0 ==> s.cart[0].id in catalog
    ensures d.Some? <==> Truthy(s.paymentCurrency) || |s.cart| > 0
    ensures d.Some? ==> d == s.paymentCurrency || (|s.cart| > 0 && d.value == catalog[s.cart[0].id].currency)
    ensures Truthy(s.paymentCurrency) ==> d == s.paymentCurrency
  {
    if Truthy(s.paymentCurrency) then s.paymentCurrency
    else if |s.cart| > 0 then Some(catalog[s.cart[0].id].currency)
    else None
  }

  /** In a valid session over a catalogue priced in dollars and euros, the
      cart page is always shown in "usd" or "eur". */
  lemma PageCurrencyIsShopCurrency(catalog: Catalog, s: Session)
    requires Valid(s)
    requires forall k :: k in catalog ==> catalog[k].currency == USD || catalog[k].currency == EUR
    requires |s.cart| > 0 ==> s.cart[0].id in catalog
    ensures var code := CodeOrUsd(DisplayCurrency(catalog, s)); code == USD || code == EUR
  {
  }

  /** A row whose item is already priced in the display currency is not
      converted: its subtotal is the plain price times the quantity. */
  lemma RowInDisplayCurrency(row: CartRow, item: Item, quantity: int, display: Option<string>)
    requires Truthy(display) && display == Some(item.currency)
    requires RowFor(row, item, quantity, CodeOrUsd(display), display)
    ensures !row.converted
    ensures row.subtotal == item.price * quantity
  {
  }

  /** `display_currency or "usd"`. */
  function CodeOrUsd(d: Option<string>): string
  {
    if Truthy(d) then d.value else USD
  }

  function Subtotals(rows: seq<CartRow>): seq<int>
  {
    seq(|rows|, i requires 0 <= i < |rows| => rows[i].subtotal)
  }

  /** view_cart. It fails on a cart key whose item has gone. Otherwise
      each row holds the item's price converted to the page currency times
      the quantity; the total is the sum of the rows; the count is the
      number of units in the cart. */
  method ViewCart(catalog: Catalog, s: Session) returns (r: Result<CartPage, ItemId>)
    ensures r.Failure? <==> exists i :: 0 <= i < |s.cart| && s.cart[i].id !in catalog
    ensures r.Failure? ==> r.error in Quantities(s.cart) && r.error !in catalog
    ensures r.Success? ==>
              var page := r.value;
              var display := DisplayCurrency(catalog, s);
              && page.currency == CodeOrUsd(display)
              && |page.rows| == |s.cart|
              && (forall i :: 0 <= i < |s.cart| ==>
                    s.cart[i].id in catalog && RowFor(page.rows[i], catalog[s.cart[i].id], s.cart[i].quantity, page.currency, display))
              && page.total == Sum(Subtotals(page.rows))
              && page.count == TotalQuantity(s.cart)
    ensures |s.cart| == 0 ==>
              r.Success? && r.value.total == 0 && r.value.count == 0 && r.value.rows == []
              && r.value.currency == CodeOrUsd(s.paymentCurrency)
  {
    var missing := FirstMissing(catalog, s.cart);
    if missing.Some? {
      QuantitiesAt(s.cart, missing.value);
      return Failure(s.cart[missing.value].id);
    }
    var display := DisplayCurrency(catalog, s);
    var code := CodeOrUsd(display);
    var rows, total := CartRows(catalog, s.cart, code, display);
    r := Success(CartPage(rows, total, code, TotalQuantity(s.cart)));
  }

  /** The loop of view_cart over the cart entries, once every key is known
      to be in the catalog. */
  method CartRows(catalog: Catalog, cart: Cart, code: string, display: Option<string>) returns (rows: seq<CartRow>, total: int)
    requires forall i :: 0 <= i < |cart| ==> cart[i].id in catalog
    ensures |rows| == |cart|
    ensures forall i :: 0 <= i < |cart| ==> RowFor(rows[i], catalog[cart[i].id], cart[i].quantity, code, display)
    ensures total == Sum(Subtotals(rows))
  {
    rows := [];
    total := 0;
    var i := 0;
    while i < |cart|
      invariant 0 <= i <= |cart|
      invariant |rows| == i
      invariant forall j :: 0 <= j < i ==> RowFor(rows[j], catalog[cart[j].id], cart[j].quantity, code, display)
      invariant total == Sum(Subtotals(rows))
    {
      var item := catalog[cart[i].id];
      var quantity := cart[i].quantity;
      var subtotal := ConvertToBaseCurrency(item.price, item.currency, code) * quantity;
      var row := CartRow(item, quantity, subtotal, item.currency, display != Some(item.currency));
      SubtotalsAppend(rows, row);
      rows := rows + [row];
      total := total + subtotal;
      i := i + 1;
    }
  }

  /** The cart page row for `quantity` units of `item` shown in `code`:
      the price converted to `code` times the quantity, and flagged as
      converted when the item's own currency is not the display currency. */
  predicate RowFor(row: CartRow, item: Item, quantity: int, code: string, display: Option<string>)
  {
    && row.item == item
    && row.quantity == quantity
    && row.subtotal == ConvertToBaseCurrency(item.price, item.currency, code) * quantity
    && row.originalCurrency == item.currency
    && row.converted == (display != Some(item.currency))
  }

  /** Adding a row adds its subtotal to the total. */
  lemma SubtotalsAppend(rows: seq<CartRow>, row: CartRow)
    ensures Sum(Subtotals(rows + [row])) == Sum(Subtotals(rows)) + row.subtotal
  {
    assert Subtotals(rows + [row]) == Subtotals(rows) + [row.subtotal];
    SumAppend(Subtotals(rows), [row.subtotal]);
    assert Sum([row.subtotal]) == row.subtotal by { assert [row.subtotal][..0] == []; }
  }

  /** A request the session can receive. Checkout carries the id the
      database gives the new order. */
  datatype Request =
    | AddRequest(id: ItemId)
    | RemoveRequest(id: ItemId)
    | BuyNowRequest(id: ItemId)
    | UpdateRequest(id: ItemId, action: string)
    | CurrencyRequest(code: string)
    | CheckoutRequest(orderId: nat)
    | SuccessRequest

  /** The session after one request; a failing view leaves it unchanged. */
  function Step(catalog: Catalog, s: Session, req: Request): (r: Session)
    ensures Valid(s) ==> Valid(r)
  {
    match req
    case AddRequest(id) =>
      var res := AddToCart(catalog, s, id);
      if res.Success? then res.value else s
    case RemoveRequest(id) => RemoveFromCart(s, id)
    case BuyNowRequest(id) =>
      var res := BuyNow(catalog, s, id);
      if res.Success? then res.value else s
    case UpdateRequest(id, action) => UpdateCartQuantity(s, id, action)
    case CurrencyRequest(code) => ChangeCurrency(s, code)
    case CheckoutRequest(orderId) =>
      var res := CreateOrderFromCart(catalog, s, orderId);
      if res.Placed? then res.session else s
    case SuccessRequest => PaymentSuccess(s)
  }

  /** The session after a sequence of requests, in order. */
  function Run(catalog: Catalog, s: Session, reqs: seq<Request>): Session
    decreases |reqs|
  {
    if |reqs| == 0 then s else Run(catalog, Step(catalog, s, reqs[0]), reqs[1..])
  }

  /** Whatever requests arrive, starting from a valid session (the empty
      one is), every cart quantity stays at least 1 and the payment
      currency stays "usd", "eur" or unset. */
  lemma {:induction false} RunPreservesValid(catalog: Catalog, s: Session, reqs: seq<Request>)
    requires Valid(s)
    ensures Valid(Run(catalog, s, reqs))
    decreases |reqs|
  {
    if |reqs| > 0 {
      RunPreservesValid(catalog, Step(catalog, s, reqs[0]), reqs[1..]);
    }
  }
}
