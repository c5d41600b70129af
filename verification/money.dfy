/** Monetary amounts. The balance column is DECIMAL(19, 4), so every balance
    and amount is modelled as an exact integer count of 10^-4 units: 1000.00
    is 10_000_000. No binary floating point is involved anywhere. */
module Money {
  import opened Digits

  /** Fractional digits kept by the balance column. */
  const Scale: nat := 4

  /** Units in one whole currency unit: 10^Scale. */
  const UnitsPerWhole: nat := 10000

  /** The smallest amount a request may carry: 0.01. */
  const MinimumAmount: int := 100

  /** `BigDecimal.toString` of a scale-4 value: an optional minus sign, the
      whole part without leading zeros, a point and exactly four digits. */
  function DecimalText(v: int): (s: string)
    ensures |s| >= Scale + 2
    ensures s[|s| - (Scale + 1)] == '.'
    ensures s[0] == '-' <==> v < 0
    ensures forall i :: |s| - Scale <= i < |s| ==> '0' <= s[i] <= '9'
    ensures (if v < 0 then 1 else 0) < |s| - (Scale + 1)
    ensures forall i :: (if v < 0 then 1 else 0) <= i < |s| - (Scale + 1) ==> '0' <= s[i] <= '9'
  {
    var magnitude: nat := if v < 0 then -v else v;
    var body := NaturalText(magnitude / UnitsPerWhole, 10) + "." + PaddedText(magnitude % UnitsPerWhole, 10, Scale);
    if v < 0 then "-" + body else body
  }

  /** Reads an unsigned scale-4 decimal: whole digits, a point, four digits. */
  function UnsignedOfText(s: string): nat
  {
    if |s| < Scale + 1 then 0
    else TextValue(s[..|s| - (Scale + 1)], 10) * UnitsPerWhole + TextValue(s[|s| - Scale..], 10)
  }

  /** Reads text in the form `DecimalText` produces back into units. */
  function DecimalOfText(s: string): int
  {
    if |s| > 0 && s[0] == '-' then 0 - UnsignedOfText(s[1..]) as int else UnsignedOfText(s)
  }

  lemma UnsignedRoundTrip(m: nat)
    ensures UnsignedOfText(NaturalText(m / UnitsPerWhole, 10) + "." + PaddedText(m % UnitsPerWhole, 10, Scale))
            == m
  {
    var whole := NaturalText(m / UnitsPerWhole, 10);
    var frac := PaddedText(m % UnitsPerWhole, 10, Scale);
    var body := whole + "." + frac;
    assert body[..|body| - (Scale + 1)] == whole;
    assert body[|body| - Scale..] == frac;
    NaturalTextRoundTrip(m / UnitsPerWhole, 10);
    assert Pow(10, Scale) == UnitsPerWhole by {
      assert Pow(10, 1) == 10;
      assert Pow(10, 2) == 100;
      assert Pow(10, 3) == 1000;
    }
    PaddedTextRoundTrip(m % UnitsPerWhole, 10, Scale);
  }

  /** The text of an amount determines the amount. */
  lemma DecimalTextRoundTrip(v: int)
    ensures DecimalOfText(DecimalText(v)) == v
  {
    var magnitude: nat := if v < 0 then -v else v;
    var body := NaturalText(magnitude / UnitsPerWhole, 10) + "." + PaddedText(magnitude % UnitsPerWhole, 10, Scale);
    UnsignedRoundTrip(magnitude);
    if v < 0 {
      assert ("-" + body)[1..] == body;
    }
  }
}
