/** The catalogue and order records and the order's derived price
    (payments/models.py): the order total applies the discount to the sum
    of its item prices first and the tax to the discounted amount second,
    each truncated to whole cents. */
module Models {
  import opened Wrappers
  import opened IntMath
  import opened Conversion
  import PaymentFilters
  import DecimalText
  import NameOrder

  type ItemId = nat

  /** A `DecimalField(max_digits=5, decimal_places=2)` percent, held in
      hundredths of a percent: 10.00 % is 1000 and 100.00 % is 10000. */
  type Hundredths = x: int | -99999 <= x <= 99999

  /** 100 % in hundredths of a percent, times 100 for the division by 100. */
  const WHOLE: nat := 10000

  datatype Item = Item(id: ItemId, name: string, description: string, price: int, currency: string)

  datatype Discount = Discount(name: string, percent: Hundredths)

  datatype Tax = Tax(name: string, percent: Hundredths)

  /** An order: the items of its many-to-many relation (in any order),
      and the discount and tax it may reference. */
  datatype Order = Order(items: seq<Item>, discount: Option<Discount>, tax: Option<Tax>)

  function Prices(items: seq<Item>): (ps: seq<int>)
    ensures |ps| == |items|
    ensures forall i :: 0 <= i < |items| ==> ps[i] == items[i].price
  {
    seq(|items|, i requires 0 <= i < |items| => items[i].price)
  }

  /** `int(total * (percent / 100))`: the Decimal product is exact for the
      amounts in question and `int()` truncates it toward zero. */
  function PercentOf(total: int, percent: Hundredths): int
  {
    TruncDiv(total * percent, WHOLE)
  }

  /** The discount step: the total less its truncated percentage, which for
      a non-negative total and percent is the reduced total rounded up to
      whole cents. */
  function ApplyDiscount(total: int, discount: Option<Discount>): (r: int)
    ensures discount.None? ==> r == total
    ensures discount.Some? && total >= 0 && discount.value.percent >= 0 ==>
              total * (WHOLE - discount.value.percent) <= r * WHOLE
              < total * (WHOLE - discount.value.percent) + WHOLE
  {
    match discount
    case None => total
    case Some(d) => total - PercentOf(total, d.percent)
  }

  /** The tax step: the total plus its truncated percentage, which for a
      non-negative total and percent is the increased total rounded down to
      whole cents. */
  function ApplyTax(total: int, tax: Option<Tax>): (r: int)
    ensures tax.None? ==> r == total
    ensures tax.Some? && total >= 0 && tax.value.percent >= 0 ==>
              r * WHOLE <= total * (WHOLE + tax.value.percent) < (r + 1) * WHOLE
  {
    match tax
    case None => total
    case Some(t) => total + PercentOf(total, t.percent)
  }

  /** The sum of the item prices, before discount and tax. */
  function Subtotal(o: Order): int
  {
    Sum(Prices(o.items))
  }

  /** Order.get_total_price. */
  function GetTotalPrice(o: Order): (r: int)
    ensures |o.items| == 0 ==> r == 0
    ensures o.discount.None? && o.tax.None? ==> r == Sum(Prices(o.items))
  {
    ApplyTax(ApplyDiscount(Subtotal(o), o.discount), o.tax)
  }

  /** With non-negative prices, a discount of at most 100 % and a
      non-negative tax: the total is non-negative, the discount step never
      raises the amount and the tax step never lowers it. */
  lemma TotalPriceBounds(o: Order)
    requires forall i :: 0 <= i < |o.items| ==> o.items[i].price >= 0
    requires o.discount.Some? ==> 0 <= o.discount.value.percent <= WHOLE
    requires o.tax.Some? ==> o.tax.value.percent >= 0
    ensures 0 <= ApplyDiscount(Subtotal(o), o.discount) <= Subtotal(o)
    ensures ApplyDiscount(Subtotal(o), o.discount) <= GetTotalPrice(o)
    ensures 0 <= GetTotalPrice(o)
  {
    SumNonNegative(Prices(o.items));
    var s := Subtotal(o);
    if o.discount.Some? {
      var d := o.discount.value.percent;
      MulBetween(s, WHOLE - d, WHOLE);
    }
    var dsc := ApplyDiscount(s, o.discount);
    if o.tax.Some? {
      var t := o.tax.value.percent;
      MulBetween(dsc, WHOLE, WHOLE + t);
    }
  }

  /** 0 <= s * m <= s * n for 0 <= s and 0 <= m <= n. */
  lemma MulBetween(s: int, m: int, n: int)
    requires 0 <= s && 0 <= m <= n
    ensures 0 <= s * m <= s * n
  {
  }

  /** The tax is taken on the discounted amount, never on the plain sum:
      for non-negative amounts and percents the total is less than one cent
      below sum * (1 - d) * (1 + t), the discount applied first, and less
      than (1 + t) cents above it. */
  lemma DiscountBeforeTax(o: Order)
    requires forall i :: 0 <= i < |o.items| ==> o.items[i].price >= 0
    requires o.discount.Some? && 0 <= o.discount.value.percent <= WHOLE
    requires o.tax.Some? && o.tax.value.percent >= 0
    ensures var x := Subtotal(o) * (WHOLE - o.discount.value.percent);
            var k := WHOLE + o.tax.value.percent;
            && x * k < (GetTotalPrice(o) + 1) * (WHOLE * WHOLE)
            && GetTotalPrice(o) * (WHOLE * WHOLE) < (x + WHOLE) * k
  {
    TotalPriceBounds(o);
    var s := Subtotal(o);
    var dsc := ApplyDiscount(s, o.discount);
    var d := o.discount.value.percent;
    var t := o.tax.value.percent;
    ScaledBounds(s * (WHOLE - d), dsc, WHOLE + t, GetTotalPrice(o));
  }

  /** x <= D * W < x + W and r * W <= D * k < (r + 1) * W, multiplied
      through by k and by W. */
  lemma ScaledBounds(x: int, D: int, k: nat, r: int)
    requires x <= D * WHOLE < x + WHOLE
    requires r * WHOLE <= D * k < (r + 1) * WHOLE
    requires k > 0
    ensures x * k < (r + 1) * (WHOLE * WHOLE)
    ensures r * (WHOLE * WHOLE) < (x + WHOLE) * k
  {
    var y := D * WHOLE;
    var Dk := D * k;
    MulLe(x, y, k);
    assert y * k == Dk * WHOLE;
    assert Dk * WHOLE < (r + 1) * (WHOLE * WHOLE);
    MulLt(y, x + WHOLE, k);
    assert r * (WHOLE * WHOLE) <= Dk * WHOLE;
  }

  /** Order.get_currency: the currency of the order's first item by name,
      or "usd" for an order without items. */
  function GetCurrency(o: Order): (c: string)
    ensures |o.items| == 0 ==> c == USD
    ensures |o.items| > 0 ==> exists k :: 0 <= k < |o.items| && c == o.items[k].currency
                                && forall i :: 0 <= i < |o.items| ==> !NameOrder.Less(o.items[i].name, o.items[k].name)
  {
    if |o.items| == 0 then USD else o.items[FirstByName(o.items)].currency
  }

  /** The position of `items.first()` under ordering by name: an item no
      other item's name precedes, the earliest such when names tie. */
  function FirstByName(items: seq<Item>): (k: nat)
    requires |items| > 0
    ensures k < |items|
    ensures forall i :: 0 <= i < |items| ==> !NameOrder.Less(items[i].name, items[k].name)
    ensures forall i :: 0 <= i < k ==> NameOrder.Less(items[k].name, items[i].name)
  {
    if |items| == 1 then
      NameOrder.Irreflexive(items[0].name);
      0
    else
      var k' := FirstByName(items[1..]) + 1;
      forall i | 1 <= i < |items|
        ensures !NameOrder.Less(items[i].name, items[k'].name)
      {
        assert items[i] == items[1..][i - 1];
      }
      if NameOrder.Less(items[k'].name, items[0].name) then
        NameOrder.Asymmetric(items[k'].name, items[0].name);
        forall i | 1 <= i < k'
          ensures NameOrder.Less(items[k'].name, items[i].name)
        {
          assert items[i] == items[1..][i - 1];
        }
        k'
      else
        NameOrder.Irreflexive(items[0].name);
        forall i | 1 <= i < |items|
          ensures !NameOrder.Less(items[i].name, items[0].name)
        {
          NameOrder.Total(items[i].name, items[k'].name);
          if NameOrder.Less(items[i].name, items[0].name) && NameOrder.Less(items[k'].name, items[i].name) {
            NameOrder.Transitive(items[k'].name, items[i].name, items[0].name);
          }
        }
        0
  }

  /** When the items are already in name order, the order's currency is
      that of the first one. */
  lemma CurrencyOfSortedItems(o: Order)
    requires |o.items| > 0
    requires forall i, j :: 0 <= i < j < |o.items| ==> !NameOrder.Less(o.items[j].name, o.items[i].name)
    ensures GetCurrency(o) == o.items[0].currency
  {
  }

  /** "$" for "usd", "€" for every other code. */
  function CurrencySymbol(code: string): string
  {
    if code == USD then "$" else "€"
  }

  /** Item.get_display_price: the symbol followed by the price in units
      with two decimals. */
  function GetDisplayPrice(item: Item): (s: string)
    ensures |s| >= 1
    ensures s[0] == (if item.currency == USD then '$' else '€')
    ensures PaymentFilters.IsCentsText(s[1..])
    ensures PaymentFilters.ParseCents(s[1..]) == Some(item.price)
  {
    var s := CurrencySymbol(item.currency) + PaymentFilters.CentsToCurrency(item.price);
    assert s[1..] == PaymentFilters.CentsToCurrency(item.price);
    s
  }

  /** Item.__str__: the name, " - ", and the display price, whose symbol
      and amount sit right after the separator. */
  function ItemToString(item: Item): (s: string)
    ensures |s| >= |item.name| + 4
    ensures s[..|item.name|] == item.name
    ensures s[|item.name|..|item.name| + 3] == " - "
    ensures s[|item.name| + 3] == (if item.currency == USD then '$' else '€')
    ensures PaymentFilters.IsCentsText(s[|item.name| + 4..])
    ensures PaymentFilters.ParseCents(s[|item.name| + 4..]) == Some(item.price)
  {
    var p := GetDisplayPrice(item);
    SeparatedParts(item.name, p);
    item.name + " - " + p
  }

  /** Where the parts of `name + " - " + p` sit. */
  lemma SeparatedParts(name: string, p: string)
    requires |p| >= 1
    ensures var s := name + " - " + p;
            && |s| == |name| + 3 + |p|
            && s[..|name|] == name
            && s[|name|..|name| + 3] == " - "
            && s[|name| + 3] == p[0]
            && s[|name| + 4..] == p[1..]
  {
    var s := name + " - " + p;
    assert s[|name| + 4..] == p[1..];
  }

  /** Two items of the same name with the same text have the same price,
      and both or neither are priced in dollars. */
  lemma ItemToStringDeterminesPrice(a: Item, b: Item)
    requires a.name == b.name && ItemToString(a) == ItemToString(b)
    ensures a.price == b.price
    ensures a.currency == USD <==> b.currency == USD
  {
    var n := |a.name|;
    assert ItemToString(a)[n + 4..] == ItemToString(b)[n + 4..];
    assert ItemToString(a)[n + 3] == ItemToString(b)[n + 3];
  }

  /** Order.get_display_total: the symbol of the order's currency followed
      by its total with two decimals. */
  function GetDisplayTotal(o: Order): (s: string)
    ensures |s| >= 1
    ensures s[0] == (if GetCurrency(o) == USD then '$' else '€')
    ensures PaymentFilters.IsCentsText(s[1..])
    ensures PaymentFilters.ParseCents(s[1..]) == Some(GetTotalPrice(o))
  {
    var s := CurrencySymbol(GetCurrency(o)) + PaymentFilters.CentsToCurrency(GetTotalPrice(o));
    assert s[1..] == PaymentFilters.CentsToCurrency(GetTotalPrice(o));
    s
  }

  /** The display prices the repository's model tests expect. */
  lemma DisplayExamples()
    ensures GetDisplayPrice(Item(1, "Test Product USD", "", 5000, USD)) == "$50.00"
    ensures GetDisplayPrice(Item(2, "Test Product EUR", "", 3000, EUR)) == "€30.00"
  {
    DisplayPriceUsdExample();
    DisplayPriceEurExample();
  }

  lemma DisplayPriceUsdExample()
    ensures GetDisplayPrice(Item(1, "Test Product USD", "", 5000, USD)) == "$50.00"
  {
    PaymentFilters.CentsToCurrencyExamples();
    assert CurrencySymbol(USD) == "$";
    assert GetDisplayPrice(Item(1, "Test Product USD", "", 5000, USD)) == "$" + "50.00";
  }

  lemma DisplayPriceEurExample()
    ensures GetDisplayPrice(Item(2, "Test Product EUR", "", 3000, EUR)) == "€30.00"
  {
    PaymentFilters.UnsignedTextParts(3000);
    assert DecimalText.NatToString(30) == "30";
    assert PaymentFilters.TwoDigits(0) == "00";
    assert PaymentFilters.CentsToCurrency(3000) == "30.00";
    assert CurrencySymbol(EUR) == "€";
    assert GetDisplayPrice(Item(2, "Test Product EUR", "", 3000, EUR)) == "€" + "30.00";
  }

  /** The item text the repository's model tests expect. */
  lemma ItemToStringExample()
    ensures ItemToString(Item(1, "Test Product USD", "", 5000, USD)) == "Test Product USD - $50.00"
  {
    var item := Item(1, "Test Product USD", "", 5000, USD);
    DisplayPriceUsdExample();
    ItemToStringParts(item, "$50.00");
  }

  /** The item text is the name, the separator and the display price. */
  lemma ItemToStringParts(item: Item, price: string)
    requires GetDisplayPrice(item) == price
    ensures ItemToString(item) == item.name + " - " + price
  {
  }

  /** Two items of 50.00: their sum, with 10 % off, and with 20 % tax. */
  lemma TotalExamples()
    ensures GetTotalPrice(Order(TwoItems(), None, None)) == 10000
    ensures GetTotalPrice(Order(TwoItems(), Some(Discount("", 1000)), None)) == 9000
    ensures GetTotalPrice(Order(TwoItems(), None, Some(Tax("", 2000)))) == 12000
  {
    assert Prices(TwoItems()) == [5000, 5000];
    assert Sum([5000, 5000]) == 10000 by {
      assert [5000, 5000][..1] == [5000];
      assert [5000][..0] == [];
    }
  }

  function TwoItems(): seq<Item>
  {
    [Item(1, "A", "", 5000, USD), Item(2, "B", "", 5000, USD)]
  }

  /** 10 % off and then 20 % tax on 50.00 is 54.00; an empty order is 0
      whatever its discount and tax; a plain 50.00 order displays as
      "$50.00". */
  lemma DiscountThenTaxExample()
    ensures GetTotalPrice(Order([Item(1, "A", "", 5000, USD)], Some(Discount("", 1000)), Some(Tax("", 2000)))) == 5400
    ensures GetTotalPrice(Order([], Some(Discount("", 1000)), Some(Tax("", 2000)))) == 0
    ensures GetDisplayTotal(Order([Item(1, "A", "", 5000, USD)], None, None)) == "$50.00"
  {
    assert Prices([Item(1, "A", "", 5000, USD)]) == [5000];
    assert Sum([5000]) == 5000 by {
      assert [5000][..0] == [];
    }
    assert PaymentFilters.CentsToCurrency(5000) == "50.00" by {
      PaymentFilters.CentsToCurrencyExamples();
    }
    assert CurrencySymbol(USD) == "$";
  }
}
