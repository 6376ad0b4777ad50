/** Conversion of an integer price in cents between the two shop
    currencies at the fixed rate EUR_TO_USD_RATE = 1.1, as the cart page
    does it: `int(price * 1.1)` from euros to dollars and `int(price / 1.1)`
    from dollars to euros, both in binary64 floating point. */
module Conversion {
  import opened Float64
  import opened IntMath

  const USD: string := "usd"
  const EUR: string := "eur"

  /** The double nearest to 1.1 is RATE_SIGNIFICAND / 2^52, slightly above
      1.1: 10 * RATE_SIGNIFICAND == 11 * 2^52 + 4. */
  const RATE_SIGNIFICAND: nat := 4953959590107546

  /** 2^48: below this magnitude both conversions are within one cent of
      the exact rational result (see the lemmas below). */
  const TWO48: int := 0x1_0000_0000_0000

  /** int(p * 1.1) for p >= 0. Prices of 2^52 cents or more are taken as
      the exact truncated product. */
  function EurToUsdMagnitude(p: nat): nat
  {
    if p < TWO52 then
      assert p * RATE_SIGNIFICAND < TWO53 * TWO52;
      TruncRounded(p * RATE_SIGNIFICAND, TWO52)
    else
      11 * p / 10
  }

  /** int(p / 1.1) for p >= 0, with the same cut-off as above. */
  function UsdToEurMagnitude(p: nat): nat
  {
    if p < TWO52 then
      assert p * TWO52 < TWO53 * RATE_SIGNIFICAND;
      TruncRounded(p * TWO52, RATE_SIGNIFICAND)
    else
      10 * p / 11
  }

  /** `int()` truncates toward zero and binary64 rounding is symmetric, so
      a negative price converts to the negated conversion of its magnitude. */
  function EurToUsd(price: int): int
  {
    if price >= 0 then EurToUsdMagnitude(price) else 0 - EurToUsdMagnitude(-price)
  }

  function UsdToEur(price: int): int
  {
    if price >= 0 then UsdToEurMagnitude(price) else 0 - UsdToEurMagnitude(-price)
  }

  /** The only pairs the rate applies to. */
  predicate IsRatePair(currency: string, baseCurrency: string)
  {
    (currency == EUR && baseCurrency == USD) || (currency == USD && baseCurrency == EUR)
  }

  /** convert_to_base_currency: the price unchanged for equal currencies and
      for any pair other than eur/usd; otherwise the float conversion, which
      for prices below 2^48 cents is the exact floor from euros to dollars and
      the exact floor or one cent less (only on multiples of 11) from dollars
      to euros. */
  function ConvertToBaseCurrency(price: int, currency: string, baseCurrency: string): (r: int)
    ensures currency == baseCurrency ==> r == price
    ensures !IsRatePair(currency, baseCurrency) ==> r == price
    ensures currency == EUR && baseCurrency == USD && -TWO48 < price < TWO48 ==>
              r == TruncDiv(11 * price, 10)
    ensures currency == USD && baseCurrency == EUR && 0 <= price < TWO48 ==>
              r == 10 * price / 11 || (price % 11 == 0 && price > 0 && r == 10 * price / 11 - 1)
  {
    if currency == baseCurrency then price
    else if baseCurrency == USD && currency == EUR then
      if -TWO48 < price < TWO48 then EurToUsdExact(price); EurToUsd(price)
      else EurToUsd(price)
    else if baseCurrency == EUR && currency == USD then
      if 0 <= price < TWO48 then UsdToEurNearFloor(price); UsdToEur(price)
      else UsdToEur(price)
    else price
  }

  /** int(p * 1.1) equals the exact truncation of 11p/10 for |p| < 2^48. */
  lemma EurToUsdExact(price: int)
    requires -TWO48 < price < TWO48
    ensures EurToUsd(price) == TruncDiv(11 * price, 10)
  {
    var p: nat := if price >= 0 then price else -price;
    EurToUsdMagnitudeExact(p);
  }

  lemma EurToUsdMagnitudeExact(p: nat)
    requires p < TWO48
    ensures EurToUsdMagnitude(p) == 11 * p / 10
  {
    var r := EurToUsdMagnitude(p);
    var n := 11 * p / 10;
    var a := p * RATE_SIGNIFICAND;
    assert 10 * a == 11 * p * TWO52 + 4 * p;
    // lower: n * 2^52 <= a, so n <= a / 2^52 <= r
    assert n * TWO52 <= a;
    DivAtLeast(a, TWO52, n);
    // upper: r <= n, else 10 r >= 11 p + 1 breaks the relative error bound
    assert r * TWO52 * TWO53 <= a * (TWO53 + 1);
    assert r <= n;
  }

  /** int(p / 1.1) for 0 <= p < 2^48 is floor(10p/11), except that on a
      positive multiple of 11 it may be one less (110 / 1.1 evaluates to
      99.99999999999999). */
  lemma UsdToEurNearFloor(p: nat)
    requires p < TWO48
    ensures UsdToEur(p) == 10 * p / 11 || (p % 11 == 0 && p > 0 && UsdToEur(p) == 10 * p / 11 - 1)
  {
    UsdToEurAtMostFloor(p);
    UsdToEurAtLeast(p);
  }

  lemma UsdToEurAtMostFloor(p: nat)
    requires p < TWO48
    ensures UsdToEurMagnitude(p) <= 10 * p / 11
  {
    var r := UsdToEurMagnitude(p);
    var n := 10 * p / 11;
    assert r * RATE_SIGNIFICAND * TWO53 <= p * TWO52 * (TWO53 + 1);
  }

  lemma UsdToEurAtLeast(p: nat)
    requires p < TWO48
    ensures p % 11 != 0 ==> 10 * p / 11 <= UsdToEurMagnitude(p)
    ensures p % 11 == 0 && p > 0 ==> 10 * p / 11 - 1 <= UsdToEurMagnitude(p)
  {
    var n := 10 * p / 11;
    var q := p * TWO52 / RATE_SIGNIFICAND;
    assert q <= UsdToEurMagnitude(p);
    if p % 11 != 0 {
      ElevenDividesTenTimes(p);
      QuotientAbove(p, n);
    } else if p > 0 {
      assert 11 * (n - 1) < 10 * p;
      QuotientAbove(p, n - 1);
    }
  }

  /** 11 divides 10 p only when it divides p. */
  lemma ElevenDividesTenTimes(p: nat)
    ensures p % 11 != 0 ==> 11 * (10 * p / 11) < 10 * p
  {
    var m := 10 * p / 11;
    if 11 * m == 10 * p {
      assert p == 11 * (p - m);
    }
  }

  /** p * 2^52 / RATE_SIGNIFICAND, the exact floor of the quotient, is at
      least every k with 11 k < 10 p, for p below 2^48. */
  lemma QuotientAbove(p: nat, k: nat)
    requires p < TWO48 && 11 * k < 10 * p
    ensures k <= p * TWO52 / RATE_SIGNIFICAND
  {
    assert 10 * (k * RATE_SIGNIFICAND) == 11 * k * TWO52 + 4 * k;
    assert 11 * k * TWO52 + 4 * k <= 10 * p * TWO52;
    DivAtLeast(p * TWO52, RATE_SIGNIFICAND, k);
  }

  /** The lower value is really taken: 110 cents convert to 99, not 100. */
  lemma UsdToEurOf110()
    ensures 10 * 110 / 11 == 100
    ensures ConvertToBaseCurrency(110, USD, EUR) == 99
  {
    assert 110 * TWO52 == 495395959010754560;
    assert TruncRounded(495395959010754560, 4953959590107546) == 99;
  }

  /** The amounts the repository's conversion tests expect: identity on equal
      currencies, 1000 and 1000000 euro cents to dollars, zero, and 1100
      dollar cents to euros, which truncates 999.9999999999999 to 999. */
  lemma ConversionExamples()
    ensures ConvertToBaseCurrency(1000, USD, USD) == 1000
    ensures ConvertToBaseCurrency(1000, EUR, EUR) == 1000
    ensures ConvertToBaseCurrency(1000, EUR, USD) == 1100
    ensures ConvertToBaseCurrency(0, EUR, USD) == 0
    ensures ConvertToBaseCurrency(1000000, EUR, USD) == 1100000
    ensures ConvertToBaseCurrency(1100, USD, EUR) == 999
    ensures ConvertToBaseCurrency(1000, "gbp", USD) == 1000
  {
    assert 1100 * TWO52 == 4953959590107545600;
    assert TruncRounded(4953959590107545600, 4953959590107546) == 999;
  }

  /** Converting a negated price gives the negated conversion. */
  lemma ConvertNegate(price: int, currency: string, baseCurrency: string)
    ensures ConvertToBaseCurrency(-price, currency, baseCurrency)
         == -ConvertToBaseCurrency(price, currency, baseCurrency)
  {
  }
}
