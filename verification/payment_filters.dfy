/** The `cents_to_currency` template filter: an integer amount of cents
    shown as "units.cc" with exactly two fraction digits. Item and order
    prices are displayed with the same formatting. */
module PaymentFilters {
  import opened Wrappers
  import opened DecimalText

  /** The two fraction digits "00" .. "99" of a remainder below 100. */
  function TwoDigits(c: nat): (s: string)
    requires c < 100
    ensures |s| == 2 && AllDigits(s)
    ensures 10 * DigitValue(s[0]) + DigitValue(s[1]) == c
  {
    [Digit(c / 10), Digit(c % 10)]
  }

  /** The unsigned text "units.cc" of a magnitude in cents. */
  function UnsignedText(m: nat): (body: string)
    ensures IsUnsignedText(body)
    ensures ParseUnsigned(body) == Some(m)
  {
    var whole := NatToString(m / 100);
    var frac := TwoDigits(m % 100);
    var body := whole + "." + frac;
    assert body[..|body| - 3] == whole;
    assert body[|body| - 2..] == frac;
    StringToNatOfNatToString(m / 100);
    body
  }

  /** `f"{value / 100:.2f}"`: an optional minus sign, the whole units in
      decimal without leading zeros, a point, and the cents as two digits.
      The text reads back as the same amount. */
  function CentsToCurrency(value: int): (s: string)
    ensures IsCentsText(s)
    ensures ParseCents(s) == Some(value)
    ensures (s[0] == '-') == (value < 0)
  {
    if value < 0 then
      var body := UnsignedText(-value);
      assert ("-" + body)[1..] == body;
      "-" + body
    else
      UnsignedText(value)
  }

  /** "units.cc" with a canonical whole part and two fraction digits. */
  predicate IsUnsignedText(body: string)
  {
    && |body| >= 4
    && body[|body| - 3] == '.'
    && IsCanonical(body[..|body| - 3])
    && AllDigits(body[|body| - 2..])
  }

  /** The text `CentsToCurrency` produces: an unsigned text, negated by a
      leading minus unless it is zero. */
  predicate IsCentsText(s: string)
  {
    if |s| > 0 && s[0] == '-' then IsUnsignedText(s[1..]) && s[1..] != "0.00"
    else IsUnsignedText(s)
  }

  /** Reads "units.cc" back into cents; None when the text is not of that
      shape. */
  function ParseUnsigned(body: string): Option<nat>
  {
    if |body| < 4 || body[|body| - 3] != '.' then None
    else
      var whole := body[..|body| - 3];
      var frac := body[|body| - 2..];
      if !AllDigits(whole) || !AllDigits(frac) then None
      else Some(100 * StringToNat(whole) + 10 * DigitValue(frac[0]) + DigitValue(frac[1]))
  }

  /** Reads an optionally negated "units.cc" back into cents. */
  function ParseCents(s: string): Option<int>
  {
    if |s| > 0 && s[0] == '-' then
      match ParseUnsigned(s[1..])
      case Some(m) => var v: int := -(m as int); Some(v)
      case None => None
    else
      match ParseUnsigned(s)
      case Some(m) => Some(m)
      case None => None
  }

  /** The other direction of the round trip: every text of the filter's
      shape is the formatting of the amount it reads as. */
  lemma CentsTextRoundTrip(s: string)
    requires IsCentsText(s)
    ensures ParseCents(s).Some?
    ensures CentsToCurrency(ParseCents(s).value) == s
  {
    if |s| > 0 && s[0] == '-' {
      var body := s[1..];
      var m := UnsignedRoundTrip(body);
      assert UnsignedText(0) == "0.00";
      assert m != 0;
      var v: int := -(m as int);
      assert ParseCents(s) == Some(v);
      assert CentsToCurrency(v) == "-" + UnsignedText(m);
      assert s == "-" + body;
    } else {
      var m := UnsignedRoundTrip(s);
    }
  }

  lemma UnsignedRoundTrip(body: string) returns (m: nat)
    requires IsUnsignedText(body)
    ensures ParseUnsigned(body) == Some(m)
    ensures UnsignedText(m) == body
  {
    var whole := body[..|body| - 3];
    var frac := body[|body| - 2..];
    m := 100 * StringToNat(whole) + 10 * DigitValue(frac[0]) + DigitValue(frac[1]);
    NatToStringOfStringToNat(whole);
    assert m / 100 == StringToNat(whole);
    assert m % 100 == 10 * DigitValue(frac[0]) + DigitValue(frac[1]);
    assert TwoDigits(m % 100) == frac;
    assert body == whole + "." + frac;
  }

  /** The text of a non-negative amount, spelled out. */
  lemma UnsignedTextParts(m: nat)
    ensures UnsignedText(m) == NatToString(m / 100) + "." + TwoDigits(m % 100)
  {
  }

  /** Whole units in full, then the point and the cents. */
  lemma CentsToCurrencyExamples()
    ensures CentsToCurrency(5000) == "50.00"
    ensures CentsToCurrency(123456) == "1234.56"
  {
    UnsignedTextParts(5000);
    assert NatToString(50) == "50";
    assert TwoDigits(0) == "00";
    UnsignedTextParts(123456);
    assert NatToString(1234) == "1234";
    assert TwoDigits(56) == "56";
  }

  /** Amounts under one unit keep a leading "0". */
  lemma CentsToCurrencySmallExamples()
    ensures CentsToCurrency(0) == "0.00"
    ensures CentsToCurrency(99) == "0.99"
  {
    UnsignedTextParts(0);
    assert NatToString(0) == "0";
    assert TwoDigits(0) == "00";
    UnsignedTextParts(99);
    assert TwoDigits(99) == "99";
  }

  /** The cents always take two digits. */
  lemma CentsToCurrencyPaddingExamples()
    ensures CentsToCurrency(1000) == "10.00"
    ensures CentsToCurrency(1050) == "10.50"
    ensures CentsToCurrency(1005) == "10.05"
  {
    assert NatToString(10) == "10";
    UnsignedTextParts(1000);
    assert TwoDigits(0) == "00";
    UnsignedTextParts(1050);
    assert TwoDigits(50) == "50";
    UnsignedTextParts(1005);
    assert TwoDigits(5) == "05";
  }
}
