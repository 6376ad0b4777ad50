# Payment service checkout core, modelled in Dafny

This project models the money and cart logic of a small Django shop. The
shop sells catalogue items priced in cents in US dollars ("usd") or euros
("eur"), and it keeps a shopping cart in the visitor's session. The model
covers the following parts.

- **Currency conversion.** `convert_to_base_currency` converts at a fixed
  rate of 1.1. The model does the IEEE-754 binary64 arithmetic of
  `int(price * 1.1)` and `int(price / 1.1)` exactly, in integers. The
  double nearest to 1.1 is `4953959590107546 / 2^52`, and the model rounds
  to nearest with ties to even (modules `Float64` and `Conversion`).
- **Session cart views.** The views covered are `add_to_cart`,
  `remove_from_cart`, `buy_now`, `update_cart_quantity`, `change_currency`,
  `create_order_from_cart`, `success` and `view_cart`. Each is a transition
  of a session record. The record holds the cart dictionary, the chosen
  payment currency and the pending order id (modules `SessionCart` and
  `Views`).
  - The cart is a sequence of lines with distinct ids, because a Python
    dictionary keeps insertion order and `view_cart` reads its first entry.
  - Every operation is specified against the cart's dictionary view
    `Quantities`.
  - A view that answers 404, or that fails on a cart id whose item has
    gone, returns a failure and leaves the session unchanged.
- **Order pricing and display.** `get_total_price` takes off the truncated
  discount first and then adds the truncated tax on the discounted amount.
  Percents are integer hundredths of a percent. The module `Models` also
  covers `get_currency` (the first item by name), `get_display_price`,
  `Item.__str__` and `get_display_total`.
- **Cents filter.** The `cents_to_currency` template filter is modelled
  together with its inverse, a parser (modules `PaymentFilters` and
  `DecimalText`).
- **Migration 0005 grouping loop.** The loop turns an order's item list
  into one line per distinct item carrying its count (module
  `MigrateOrderItems`). At this migration the order's items are a plain
  many-to-many relation, whose join table holds each (order, item) pair
  once, so every count the migration creates is 1. The model accepts any
  list, repeats included, and proves the count-of-1 case as a consequence.

`Views.Step` and `Views.Run` feed any sequence of requests through the
views. `Views.RunPreservesValid` proves that every cart quantity stays at
least 1, and that the payment currency stays "usd", "eur" or unset.

The dollar-to-euro branch really does truncate below the exact floor on
some multiples of 11: 110 dollar cents become 99 euro cents, because
`110 / 1.1` is `99.99999999999999` in binary64. The model states that
conversion as "the floor of 10p/11, or one less on a positive multiple of
11". This follows the code.

## Model

| member | source | states |
|---|---|---|
| Conversion.ConvertToBaseCurrency | payments/views.py:122-136 | The price is unchanged when the currencies agree, and for every pair other than eur→usd and usd→eur. eur→usd is `trunc(11p/10)` for \|p\| < 2^48. usd→eur is `floor(10p/11)`, or one less only on a positive multiple of 11, for 0 ≤ p < 2^48. |
| Conversion.EurToUsdExact | payments/views.py:131-132 | The binary64 evaluation of `int(price * 1.1)` equals the exact truncation of 11·price/10 for \|price\| < 2^48. |
| Conversion.UsdToEurNearFloor | payments/views.py:133-134 | The binary64 evaluation of `int(price / 1.1)` is `floor(10p/11)`, or that minus one, and the latter only when 11 divides p. |
| Conversion.UsdToEurOf110 | payments/views.py:133-134 | The lower value is actually taken: 110 dollar cents convert to 99 euro cents although 10·110/11 = 100. |
| Conversion.ConversionExamples | payments/views.py:126-136 | 1000 eur → 1100 usd, 0 → 0, 1000000 → 1100000, 1100 usd → 999 eur; equal currencies and an unknown currency leave 1000 unchanged. |
| Conversion.ConvertNegate | payments/views.py:126-136 | Converting −p gives −(converting p), since `int()` truncates toward zero and binary64 rounding is symmetric. |
| Float64.RoundHalfEven | payments/views.py:132-134 | The quotient rounded as the float operations round: within half a unit of a/b, and even on a tie. |
| Float64.TruncRounded | payments/views.py:132-134 | `int()` of a correctly rounded binary64 quotient is at least the exact floor, and exceeds a/b by a relative error of at most 2^-53. |
| IntMath.TruncDiv | payments/models.py:112-117 | `int()` of an exact quotient truncates toward zero: the bounds hold for both signs of the dividend. |
| Models.ApplyDiscount | payments/models.py:111-113 | With no discount the total is unchanged. Otherwise, for a non-negative total and percent, the result is the reduced total `total·(1 − d)` rounded up to a whole cent. |
| Models.ApplyTax | payments/models.py:115-117 | With no tax the total is unchanged. Otherwise, for a non-negative total and percent, the result is the increased total `total·(1 + t)` rounded down to a whole cent. |
| Models.GetTotalPrice | payments/models.py:107-119 | An order without items totals 0; without discount and tax the total is the plain sum of the item prices. |
| Models.TotalPriceBounds | payments/models.py:107-119 | For non-negative prices, a discount of at most 100 % and a non-negative tax: the total is non-negative, the discount step never raises the amount and the tax step never lowers it. |
| Models.DiscountBeforeTax | payments/models.py:111-117 | The tax is taken on the discounted amount: the total is less than one cent below sum·(1 − d)·(1 + t) and less than (1 + t) cents above it. |
| Models.TotalExamples | payments/models.py:107-119 | Two items of 5000 total 10000, 9000 with 10 % off and 12000 with 20 % tax. |
| Models.DiscountThenTaxExample | payments/models.py:107-131 | 5000 with 10 % off and 20 % tax is 5400; an empty order is 0; a plain 5000 usd order displays as "$50.00". |
| Models.GetCurrency | payments/models.py:121-124 | "usd" for an order without items; otherwise the currency of an item whose name no other item's name precedes. |
| Models.FirstByName | payments/models.py:34 | The position `items.first()` takes under ordering by name: no name precedes it, and every earlier position holds a strictly greater name. |
| Models.CurrencyOfSortedItems | payments/models.py:121-124 | For items already listed in name order, the order's currency is that of the first item. |
| NameOrder.Transitive | payments/models.py:34 | Code-point lexicographic order on names is transitive. |
| NameOrder.Total | payments/models.py:34 | Any two distinct names are ordered one way or the other. |
| Models.GetDisplayPrice | payments/models.py:26-29 | The first character is "$" for "usd" and "€" otherwise. The rest is the canonical two-decimal text `cents_to_currency` produces (no leading zeros, no "-0.00"), and it reads back as the price in cents. |
| Models.ItemToString | payments/models.py:22-24 | The text starts with the name and " - ". Next comes "$" for "usd" and "€" otherwise. The rest is the canonical two-decimal text `cents_to_currency` produces, and it reads back as the item's price in cents. |
| Models.ItemToStringDeterminesPrice | payments/models.py:22-29 | Two items of the same name with the same text have the same price, and both or neither are priced in dollars. |
| Models.GetDisplayTotal | payments/models.py:126-131 | The symbol is that of the order's currency. The rest is the canonical two-decimal text `cents_to_currency` produces, and it reads back as the order's total. |
| Models.DisplayExamples | payments/models.py:26-29 | 5000 usd displays as "$50.00" and 3000 eur as "€30.00". |
| Models.ItemToStringExample | payments/models.py:22-24 | "Test Product USD" at 5000 usd is "Test Product USD - $50.00". |
| PaymentFilters.CentsToCurrency | payments/templatetags/payment_filters.py:8-10 | The output has an optional minus sign, canonical whole units, a point and two cent digits. It reads back as the input, and it starts with "-" exactly for negative amounts. |
| PaymentFilters.CentsTextRoundTrip | payments/templatetags/payment_filters.py:8-10 | Every text of that shape is the filter's output for the amount it reads as, so the filter is a bijection onto those texts. |
| PaymentFilters.CentsToCurrencyExamples | payments/templatetags/payment_filters.py:8-10 | 5000 → "50.00" and 123456 → "1234.56". |
| PaymentFilters.CentsToCurrencySmallExamples | payments/templatetags/payment_filters.py:8-10 | 0 → "0.00" and 99 → "0.99". |
| PaymentFilters.CentsToCurrencyPaddingExamples | payments/templatetags/payment_filters.py:8-10 | 1000 → "10.00", 1050 → "10.50" and 1005 → "10.05". |
| DecimalText.StringToNatOfNatToString | payments/templatetags/payment_filters.py:10 | Reading back the decimal text of the whole units gives the number. |
| DecimalText.NatToStringOfStringToNat | payments/templatetags/payment_filters.py:10 | Every canonical digit string is the text of its value. |
| SessionCart.Find | payments/views.py:146 | `item_id in cart`: absent exactly when the id is no key, otherwise the position of its line. |
| SessionCart.AddOne | payments/views.py:146-149 | In the dictionary view a present key goes up by 1, an absent key gets 1, and nothing else changes. Positivity is kept and the unit count grows by 1. |
| SessionCart.AddOneKeyOrder | payments/views.py:146-149 | A present key keeps its place; a new key is appended after all others. |
| SessionCart.Remove | payments/views.py:216-217 | Exactly that key leaves the dictionary, and a missing key is a no-op. The result equals the reference filter `Without`, and the unit count drops by the key's quantity. |
| SessionCart.RemoveIdempotent | payments/views.py:216-217 | Removing a key twice is removing it once. |
| SessionCart.Decrease | payments/views.py:241-244 | An absent key changes nothing. A present key loses 1 and is deleted once it reaches 0 or below. Positivity is kept. |
| SessionCart.DecreaseKeyOrder | payments/views.py:241-244 | A key that stays positive keeps the key order; a key that drops out leaves the cart equal to `Without`. |
| SessionCart.DecreaseTotal | payments/views.py:241-244 | With positive quantities, decreasing a present key takes exactly one unit out of the cart. |
| SessionCart.DecreaseUndoesAdd | payments/views.py:238-244 | With positive quantities, "decrease" after adding one gives back the same cart, key order included. |
| SessionCart.AddUndoesDecrease | payments/views.py:238-244 | Adding one after "decrease" on a key holding at least 2 gives back the same cart. |
| Views.AddToCart | payments/views.py:139-152 | Fails exactly for an id not in the catalogue. Otherwise the cart gets one more of the id, the unit count grows by 1, and the currency and pending order are untouched. Validity is kept. |
| Views.RemoveFromCart | payments/views.py:211-220 | The key is deleted from the dictionary, and the session is unchanged when the key is absent. The other session keys and validity are kept. |
| Views.BuyNow | payments/views.py:223-230 | Fails exactly for an unknown id. Otherwise the cart becomes `{id: 1}`, whatever it held, with a unit count of 1. |
| Views.UpdateCartQuantity | payments/views.py:233-247 | An absent id, or an action other than "increase"/"decrease", changes nothing. "increase" adds one. "decrease" takes one off and deletes the key at 0. Validity is kept. |
| Views.ChangeCurrency | payments/views.py:204-208 | "usd" and "eur" are stored. Any other code leaves the session unchanged. The cart is never touched. |
| Views.PaymentSuccess | payments/views.py:110-117 | With a pending order the cart is emptied and the pending order forgotten. Without one the session is unchanged. |
| Views.FirstMissing | payments/views.py:267 | The first cart position whose item is missing from the catalogue, or none when every item exists. |
| Views.CreateOrderFromCart | payments/views.py:250-275 | An empty cart creates nothing, and a cart with a missing item fails on that item. Otherwise an order is placed with the stored currency or "usd" and one line per cart entry carrying its item and quantity, in cart order. The cart is kept, and the order becomes pending. |
| Views.CheckoutThenSuccess | payments/views.py:110-117 | A placed checkout followed by a successful payment leaves an empty cart and no pending order, with the currency kept. |
| Views.OrderLinesTotal | payments/views.py:266-270 | The order lines carry as many units as the cart counted. |
| Views.PageCurrencyIsShopCurrency | payments/views.py:161-172 | In a valid session over a catalogue priced in "usd" and "eur", the page currency (`display_currency or "usd"`) is "usd" or "eur". |
| Views.RowInDisplayCurrency | payments/views.py:179-190 | A row whose item is priced in the display currency is not flagged as converted, and its subtotal is the plain price times the quantity. |
| Views.ViewCart | payments/views.py:155-201 | Fails exactly when a cart item is missing. Otherwise there is one row per entry in cart order, each holding the price converted to the page currency times the quantity, with the converted flag. The total is the sum of the rows and the count is the number of units. An empty cart shows 0 in the stored currency or "usd". |
| Views.CartRows | payments/views.py:174-193 | The loop of the cart page builds one row per entry and a running total equal to the sum of the row subtotals. |
| Views.Step | payments/views.py:139-247 | Any one request keeps a valid session valid. |
| Views.RunPreservesValid | payments/views.py:139-247 | Any sequence of requests keeps every cart quantity at least 1, and keeps the payment currency "usd", "eur" or unset. |
| MigrateOrderItems.FindGroup | payments/migrations/0005_migrate_order_items.py:15 | `item.id in items_count`: none exactly when no group has the id, otherwise its position. |
| MigrateOrderItems.CountItemStep | payments/migrations/0005_migrate_order_items.py:14-18 | One turn of the loop keeps the summary right: first-occurrence order, counts equal to occurrences, counts at least 1, and the counts summing to the items seen. |
| MigrateOrderItems.GroupItems | payments/migrations/0005_migrate_order_items.py:13-26 | The groups follow first-occurrence order, with each distinct id exactly once. Each count is the id's number of occurrences and at least 1. Each group item is one of the order's items. The counts sum to the number of items, and there are no groups exactly when there are no items. |
| MigrateOrderItems.FirstOccurrencesMembers | payments/migrations/0005_migrate_order_items.py:13-18 | The reference order keeps an id exactly when it occurs. |
| MigrateOrderItems.FirstOccurrencesDistinct | payments/migrations/0005_migrate_order_items.py:13-18 | The reference order holds each id once. |
| MigrateOrderItems.DistinctItemsCountOne | payments/migrations/0005_migrate_order_items.py:14-18 | When the items are free of repeats, as the many-to-many relation guarantees, every group has quantity 1. |
| MigrateOrderItems.SummaryKeys | payments/migrations/0005_migrate_order_items.py:20-26 | A summary in first-occurrence order has distinct ids, the same ids as the items, and is empty exactly for no items. |

## Left out

- Stripe checkout and coupon creation (`create_order_checkout_session`, `create_stripe_coupon`): foreign SDK calls named after the clock.
- `OrderItem`, `Order.payment_currency`, `get_subtotal`, `get_discount_amount`, `get_tax_amount` and `get_display_subtotal`: used by tests and views, but payments/models.py does not define them, so there is no code to model. The order the checkout creates is the value `PlacedOrder`.
- Conversion.ConvertToBaseCurrency: prices of 2^52 cents or more are converted with exact rational arithmetic (`11p/10`, `10p/11` truncated), not with binary64, whose products lose integer precision there. The exact-floor statements are proved below 2^48 only.
- PaymentFilters.CentsToCurrency: `f"{value / 100:.2f}"` goes through a float; the model formats the integer exactly, which agrees with the float for magnitudes below 2^52 cents.
- Models.ApplyDiscount: `Decimal` arithmetic has 28 significant digits; the model multiplies exactly, which agrees for all `DecimalField(max_digits=5, decimal_places=2)` percents and totals below 10^23 cents.
- Models.GetCurrency: the database collation for `ordering = ["name"]` is modelled as code-point order, with ties resolved by position in the item list.
- A cart id whose item has been deleted: the views raise `DoesNotExist`. The model returns a failure and leaves the session unchanged. It does not model the order row that `create_order_from_cart` has already inserted when the failure occurs mid-loop.
- The session, the database and the catalogue are values passed in. The id the database gives a new order is a parameter of the checkout.
- Concurrent requests on one session, and repeated checkouts, are not modelled.
- HTTP plumbing is not modelled: `render`, `redirect` targets, `get_object_or_404` beyond its failure, `index` and `order_detail`.
- `Order.__str__` (date formatting of `created_at`), `Discount.__str__` and `Tax.__str__`: trivial formatting.
- The outer loop of `migrate_order_items` over all orders, and the `OrderItem.objects.create` calls: database I/O. The model returns the groups that would be created for one order. That order's items arrive in query order.
- MigrateOrderItems.GroupItems: the uniqueness of the many-to-many join table is not assumed. Repeated items are accepted as a generalisation, and `DistinctItemsCountOne` covers the repeat-free lists the database actually delivers.
- payments/admin.py, payments/urls.py, and migrations 0004 and 0006 with the reverse no-op of 0005: registration, routing and schema only.
