/** `formatCurrency`, the second unit-choosing formatter. Its input is in
    billions, and unlike formatMillions it tests the signed value, with no
    absolute value. */
module Utils {
  import opened Decimal
  import opened Metrics

  function FormatCurrency(value: real): string {
    if value >= 1.0 then "£" + Fixed1(value) + "B" else "£" + Fixed1(value * 1000.0) + "M"
  }

  /** Every output is "£", a one-decimal numeral and one unit letter. The unit
      is "B" exactly when value >= 1, so every negative value is shown in
      millions; the numeral is negative exactly when the value is. */
  lemma FormatCurrencyShape(value: real)
    ensures var s := FormatCurrency(value);
      && |s| >= 5 && s[0] == '£'
      && (s[|s| - 1] == 'B' || s[|s| - 1] == 'M')
      && (s[|s| - 1] == 'B' <==> value >= 1.0)
      && (value < 0.0 ==> s[|s| - 1] == 'M')
      && (s[1] == '-' <==> value < 0.0)
  {
  }

  /** Read back as millions, the output is within half of its last digit of
      value * 1000: 50 million in the "B" unit, 0.05 million in "M". */
  lemma FormatCurrencyRoundTrip(value: real)
    ensures ParseMillions(FormatCurrency(value)).Some?
    ensures var v := ParseMillions(FormatCurrency(value)).value;
      Abs(v - value * 1000.0) <= if value >= 1.0 then 50.0 else 0.05
  {
    var s := FormatCurrency(value);
    var big := value >= 1.0;
    var q := if big then value else value * 1000.0;
    assert q * (if big then 1000.0 else 1.0) == value * 1000.0;
    UnitRoundTrip(q, big);
    assert s == "£" + Fixed1(q) + (if big then "B" else "M");
  }

  /** formatCurrency(v) renders exactly what formatMillions renders for the
      same amount in millions, v * 1000, except when v <= -1: there
      formatMillions, testing the magnitude, says "B" and formatCurrency,
      testing the signed value, says "M". */
  lemma AgreesWithFormatMillions(value: real)
    ensures FormatCurrency(value) == FormatMillions(value * 1000.0) <==> value > -1.0
  {
    var c := FormatCurrency(value);
    var m := FormatMillions(value * 1000.0);
    if value >= 1.0 {
      assert value * 1000.0 / 1000.0 == value;
    } else if value > -1.0 {
      assert Abs(value * 1000.0) < 1000.0;
    } else {
      assert Abs(value * 1000.0) >= 1000.0;
      assert c[|c| - 1] == 'M' && m[|m| - 1] == 'B';
    }
  }

  lemma FormatCurrencyExamples()
    ensures FormatCurrency(226.84473) == "£226.8B"
    ensures FormatCurrency(-70.84252) == "£-70842.5M"
  {
    FormattedTotalBenefits();
    FormattedHassleCosts();
  }

  lemma FormattedTotalBenefits()
    ensures FormatCurrency(226.84473) == "£226.8B"
  {
    assert RoundTenths(226.84473) == 2268;
    assert NatToString(226) == "226";
  }

  lemma FormattedHassleCosts()
    ensures FormatCurrency(-70.84252) == "£-70842.5M"
  {
    assert -70.84252 * 1000.0 == -70842.52;
    HassleCostsInMillions();
    assert FormatCurrency(-70.84252) == "£" + Fixed1(-70842.52) + "M";
  }

  lemma HassleCostsInMillions()
    ensures Fixed1(-70842.52) == "-70842.5"
  {
    assert RoundTenths(70842.52) == 708425;
    assert NatToString(70842) == "70842";
    assert Unsigned(708425) == "70842.5";
  }
}
