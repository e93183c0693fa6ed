/** Properties of `_get_rate` and `convert` on a loaded converter. */
module ConversionProofs {
  import opened Wrappers
  import opened Dates
  import opened Rates
  import opened Conversion

  // ---------------------------------------------------------------------
  // `_get_rate`

  /** A bound of a loaded currency is a day of its series. */
  lemma {:induction false} BoundsAreDays(conv: Converter, c: Currency)
    requires Valid(conv) && c in conv.rates
    ensures conv.bounds[c].first in conv.rates[c] && conv.bounds[c].last in conv.rates[c]
  {
    var b := conv.bounds[c];
    assert b.first in Interval(b.first, b.last) && b.last in Interval(b.first, b.last);
  }

  /** The rate of a loaded currency: inside its bounds, the stored rate or
      RateNotFoundError for a date without one; outside, RateNotFoundError
      without `fallback_on_wrong_date` and otherwise the stored rate of the
      nearest bound. */
  lemma {:induction false} GetRateLoaded(conv: Converter, c: Currency, d: Date)
    requires Valid(conv) && c in conv.rates && c != conv.cfg.refCurrency
    ensures var b := conv.bounds[c];
            b.Contains(d) ==>
              GetRate(conv, c, d) == if conv.rates[c][d].Some? then Success(conv.rates[c][d].value)
                                     else Failure(NoRate(c, d))
    ensures var b := conv.bounds[c];
            !b.Contains(d) && !conv.cfg.fallbackOnWrongDate ==> GetRate(conv, c, d) == Failure(OutOfBounds(c, d, b))
    ensures var b := conv.bounds[c];
            !b.Contains(d) && conv.cfg.fallbackOnWrongDate ==>
              Clamp(b, d) in conv.rates[c] && conv.rates[c][Clamp(b, d)].Some? &&
              GetRate(conv, c, d) == Success(conv.rates[c][Clamp(b, d)].value)
  {
    BoundsAreDays(conv, c);
    var b := conv.bounds[c];
    assert d in conv.rates[c] <==> b.Contains(d);
  }

  /** With `fallback_on_wrong_date`, a date outside the bounds gets exactly
      the rate of the nearest bound. */
  lemma {:induction false} GetRateClamps(conv: Converter, c: Currency, d: Date)
    requires Valid(conv) && c in conv.rates && conv.cfg.fallbackOnWrongDate
    ensures GetRate(conv, c, d) == GetRate(conv, c, Clamp(conv.bounds[c], d))
  {
    if c != conv.cfg.refCurrency {
      GetRateLoaded(conv, c, d);
      GetRateLoaded(conv, c, Clamp(conv.bounds[c], d));
    }
  }

  /** On a loaded converter the "should never happen" branch of `_get_rate`
      is unreachable, and a supported currency never misses a key. */
  lemma {:induction false} GetRateNeverAsserts(conv: Converter, c: Currency, d: Date)
    requires Valid(conv)
    ensures GetRate(conv, c, d) != Failure(ShouldNeverHappen)
    ensures c in conv.currencies ==> !(GetRate(conv, c, d).Failure? && GetRate(conv, c, d).error.NoKey?)
  {
    if c != conv.cfg.refCurrency && c in conv.rates {
      GetRateLoaded(conv, c, d);
    }
  }

  /** With both fallbacks on, every supported currency has a rate on every
      date. */
  lemma {:induction false} GetRateTotal(conv: Converter, c: Currency, d: Date)
    requires Valid(conv) && conv.cfg.fallbackOnWrongDate && conv.cfg.fallbackOnMissingRate
    requires c in conv.currencies
    ensures GetRate(conv, c, d).Success?
  {
    if c != conv.cfg.refCurrency {
      GetRateLoaded(conv, c, d);
    }
  }

  // ---------------------------------------------------------------------
  // `convert`

  /** `convert` raises ValueError exactly when one of the two currencies is
      not supported, checking the source currency first; the target defaults
      to "EUR". */
  lemma {:induction false} ConvertUnsupported(conv: Converter, x: real, c: Currency, target: Option<Currency>,
                                              date: Option<Date>)
    requires Shaped(conv)
    ensures var to := if target.Some? then target.value else DefaultTarget;
            var r := Convert(conv, x, c, target, date);
            (r.Failure? && r.error.Unsupported?) <==> c !in conv.currencies || to !in conv.currencies
    ensures var to := if target.Some? then target.value else DefaultTarget;
            var r := Convert(conv, x, c, target, date);
            c in conv.currencies && to !in conv.currencies ==> r == Failure(Unsupported(to))
  {
  }

  /** Without a date, `convert` uses the source currency's last date; without
      a target, it converts to "EUR". */
  lemma {:induction false} ConvertDefaults(conv: Converter, x: real, c: Currency, target: Option<Currency>,
                                           date: Option<Date>)
    requires Shaped(conv)
    ensures Convert(conv, x, c, None, date) == Convert(conv, x, c, Some(DefaultTarget), date)
    ensures c in conv.currencies ==>
              Convert(conv, x, c, target, None) == Convert(conv, x, c, target, Some(conv.bounds[c].last))
  {
  }

  /** Given both rates on the date, `convert` divides by the source
      currency's rate and multiplies by the target's; a zero source rate is
      a division by zero. */
  lemma {:induction false} ConvertRates(conv: Converter, x: real, c: Currency, t: Currency, d: Date, r0: real, r1: real)
    requires Shaped(conv) && c in conv.currencies && t in conv.currencies
    requires GetRate(conv, c, d) == Success(r0) && GetRate(conv, t, d) == Success(r1)
    ensures r0 == 0.0 ==> Convert(conv, x, c, Some(t), Some(d)) == Failure(DivisionByZero)
    ensures r0 != 0.0 ==> Convert(conv, x, c, Some(t), Some(d)) == Success(x / r0 * r1)
  {
    assert AsConvert(GetRate(conv, c, d)) == Success(r0);
    assert AsConvert(GetRate(conv, t, d)) == Success(r1);
    if r0 != 0.0 {
      assert Convert(conv, x, c, Some(t), Some(d)).Success?;
      assert Convert(conv, x, c, Some(t), Some(d)).value == x / r0 * r1;
    }
  }

  /** Converting the reference currency to itself returns the amount. */
  lemma {:induction false} ConvertRefIdentity(conv: Converter, x: real, date: Option<Date>)
    requires Shaped(conv) && conv.cfg.refCurrency in conv.currencies
    ensures Convert(conv, x, conv.cfg.refCurrency, Some(conv.cfg.refCurrency), date) == Success(x)
  {
    var ref := conv.cfg.refCurrency;
    ConvertRates(conv, x, ref, ref, if date.Some? then date.value else conv.bounds[ref].last, 1.0, 1.0);
  }

  /** Converting a currency to itself returns the amount whenever its rate
      on the date is known and not zero. */
  lemma {:induction false} ConvertIdentity(conv: Converter, x: real, c: Currency, d: Date)
    requires Shaped(conv) && c in conv.currencies
    requires GetRate(conv, c, d).Success? && GetRate(conv, c, d).value != 0.0
    ensures Convert(conv, x, c, Some(c), Some(d)) == Success(x)
  {
    var r := GetRate(conv, c, d).value;
    ConvertRates(conv, x, c, c, d, r, r);
    assert x / r * r == x;
  }

  /** Converting there and back returns the amount when neither rate is
      zero. */
  lemma {:induction false} ConvertRoundTrip(conv: Converter, x: real, a: Currency, b: Currency, d: Date)
    requires Shaped(conv) && a in conv.currencies && b in conv.currencies
    requires GetRate(conv, a, d).Success? && GetRate(conv, a, d).value != 0.0
    requires GetRate(conv, b, d).Success? && GetRate(conv, b, d).value != 0.0
    ensures Convert(conv, x, a, Some(b), Some(d)).Success?
    ensures Convert(conv, Convert(conv, x, a, Some(b), Some(d)).value, b, Some(a), Some(d)) == Success(x)
  {
    var r0 := GetRate(conv, a, d).value;
    var r1 := GetRate(conv, b, d).value;
    ConvertRates(conv, x, a, b, d, r0, r1);
    var y := x / r0 * r1;
    ConvertRates(conv, y, b, a, d, r1, r0);
    RoundTripArithmetic(x, r0, r1);
    assert y / r1 * r0 == x;
    assert Convert(conv, x, a, Some(b), Some(d)).value == y;
    var back := Convert(conv, y, b, Some(a), Some(d));
    assert back.Success? && back.value == y / r1 * r0;
    assert back.value == x;
  }

  /** Dividing by one rate and multiplying by another, then the reverse,
      gives back the amount. */
  lemma {:induction false} RoundTripArithmetic(x: real, r0: real, r1: real)
    requires r0 != 0.0 && r1 != 0.0
    ensures x / r0 * r1 / r1 * r0 == x
  {
    Cancel(x / r0, r1);
    Cancel(x, r0);
  }

  /** Multiplying and dividing by the same non-zero rate cancel out. */
  lemma {:induction false} Cancel(u: real, r: real)
    requires r != 0.0
    ensures u * r / r == u && u / r * r == u
  {
  }

  /** Converting to the reference currency divides by the source rate. */
  lemma {:induction false} ConvertToRef(conv: Converter, x: real, a: Currency, d: Date)
    requires Shaped(conv) && a in conv.currencies && conv.cfg.refCurrency in conv.currencies
    requires GetRate(conv, a, d).Success? && GetRate(conv, a, d).value != 0.0
    ensures Convert(conv, x, a, Some(conv.cfg.refCurrency), Some(d)).Success?
    ensures Convert(conv, x, a, Some(conv.cfg.refCurrency), Some(d)).value == x / GetRate(conv, a, d).value
  {
    var r0 := GetRate(conv, a, d).value;
    var one := GetRate(conv, conv.cfg.refCurrency, d).value;
    assert one == 1.0;
    ConvertRates(conv, x, a, conv.cfg.refCurrency, d, r0, one);
    assert x / r0 * one == x / r0;
    assert Convert(conv, x, a, Some(conv.cfg.refCurrency), Some(d)).value == x / r0;
  }

  /** Converting from the reference currency multiplies by the target
      rate. */
  lemma {:induction false} ConvertFromRef(conv: Converter, y: real, b: Currency, d: Date)
    requires Shaped(conv) && b in conv.currencies && conv.cfg.refCurrency in conv.currencies
    requires GetRate(conv, b, d).Success?
    ensures Convert(conv, y, conv.cfg.refCurrency, Some(b), Some(d)).Success?
    ensures Convert(conv, y, conv.cfg.refCurrency, Some(b), Some(d)).value == y * GetRate(conv, b, d).value
  {
    var r1 := GetRate(conv, b, d).value;
    var one := GetRate(conv, conv.cfg.refCurrency, d).value;
    assert one == 1.0;
    ConvertRates(conv, y, conv.cfg.refCurrency, b, d, one, r1);
    assert y / one * r1 == y * r1;
    assert Convert(conv, y, conv.cfg.refCurrency, Some(b), Some(d)).value == y * r1;
  }

  /** Converting directly gives what converting through the reference
      currency gives. */
  lemma {:induction false} ConvertThroughRef(conv: Converter, x: real, a: Currency, b: Currency, d: Date)
    requires Shaped(conv) && a in conv.currencies && b in conv.currencies
    requires GetRate(conv, a, d).Success? && GetRate(conv, a, d).value != 0.0
    requires GetRate(conv, b, d).Success? && conv.cfg.refCurrency in conv.currencies
    ensures Convert(conv, x, a, Some(conv.cfg.refCurrency), Some(d)).Success?
    ensures var y := Convert(conv, x, a, Some(conv.cfg.refCurrency), Some(d)).value;
            && Convert(conv, x, a, Some(b), Some(d)).Success?
            && Convert(conv, y, conv.cfg.refCurrency, Some(b), Some(d)).Success?
            && Convert(conv, x, a, Some(b), Some(d)).value == Convert(conv, y, conv.cfg.refCurrency, Some(b), Some(d)).value
  {
    ConvertRates(conv, x, a, b, d, GetRate(conv, a, d).value, GetRate(conv, b, d).value);
    ConvertToRef(conv, x, a, d);
    ConvertFromRef(conv, x / GetRate(conv, a, d).value, b, d);
    assert Convert(conv, x, a, Some(b), Some(d)).value == x / GetRate(conv, a, d).value * GetRate(conv, b, d).value;
  }

  // ---------------------------------------------------------------------
  // The documented examples, on a three-day table

  /** Three days of rates: 1.3759 USD to the euro every day, as in the
      sample row of the class documentation, and BGN observed on the first
      and last day only. */
  function Sample(d: Date): (conv: Converter)
    ensures Valid(conv)
  {
    var conv := Converter(DefaultConfig, SampleRates(d), SampleBounds(d), {"USD", "BGN", "EUR"});
    SampleValid(d, conv);
    conv
  }

  function SampleRates(d: Date): map<Currency, Series> {
    map["USD" := map[d := Some(1.3759), d + 1 := Some(1.3759), d + 2 := Some(1.3759)],
        "BGN" := map[d := Some(1.9558), d + 1 := None, d + 2 := Some(1.9558)]]
  }

  function SampleBounds(d: Date): map<Currency, Bounds> {
    map["USD" := Bounds(d, d + 2), "BGN" := Bounds(d, d + 2), "EUR" := Bounds(d, d + 2)]
  }

  /** Each sample series holds the three days, with rates on both ends. */
  lemma {:induction false} SampleSeries(d: Date)
    ensures SampleRates(d).Keys == {"USD", "BGN"}
    ensures forall c :: c in SampleRates(d) ==>
              && SampleRates(d)[c].Keys == Interval(d, d + 2)
              && SampleRates(d)[c][d].Some? && SampleRates(d)[c][d + 2].Some?
  {
    assert Interval(d, d + 2) == {d, d + 1, d + 2};
  }

  /** The sample supports the three currencies, each with the same bounds. */
  lemma {:induction false} SampleCurrencies(d: Date)
    ensures SampleBounds(d).Keys == {"USD", "BGN", "EUR"}
    ensures {"USD", "BGN", "EUR"} == {"USD", "BGN"} + {"EUR"}
    ensures forall c :: c in SampleBounds(d) ==> SampleBounds(d)[c] == Bounds(d, d + 2)
  {
  }

  lemma {:induction false} SampleValid(d: Date, conv: Converter)
    requires conv == Converter(DefaultConfig, SampleRates(d), SampleBounds(d), {"USD", "BGN", "EUR"})
    ensures Valid(conv)
  {
    SampleSeries(d);
    SampleCurrencies(d);
  }

  /** The sample holds the three currencies and can be converted. */
  lemma {:induction false} SampleShaped(d: Date)
    ensures Shaped(Sample(d))
    ensures Sample(d).currencies == {"USD", "BGN", "EUR"}
  {
    ValidIsShaped(Sample(d));
  }

  /** The rates the sample gives on its first day. */
  lemma {:induction false} SampleFirstDay(d: Date)
    ensures GetRate(Sample(d), "USD", d) == Success(1.3759)
    ensures GetRate(Sample(d), "EUR", d) == Success(1.0)
  {
    var conv := Sample(d);
    assert d in conv.rates["USD"] && conv.rates["USD"][d] == Some(1.3759);
  }

  /** The USD rate on a day the sample holds prints as `1.375...`. */
  lemma {:induction false} ExampleDollarRate(d: Date)
    ensures GetRate(Sample(d), "USD", d).Success?
    ensures 1.375 <= GetRate(Sample(d), "USD", d).value < 1.376
  {
    SampleFirstDay(d);
  }

  /** The sample has no BGN rate on its second day. */
  lemma {:induction false} SampleGap(d: Date)
    ensures GetRate(Sample(d), "BGN", d + 1) == Failure(NoRate("BGN", d + 1))
  {
    var conv := Sample(d);
    assert d + 1 in conv.rates["BGN"] && conv.rates["BGN"][d + 1] == None;
  }

  /** 100 EUR converts to 137.59 USD on a day the sample holds, which
      prints as `137.5...`. */
  lemma {:induction false} ExampleEuroToDollar(d: Date)
    ensures Convert(Sample(d), 100.0, "EUR", Some("USD"), Some(d)) == Success(100.0 / 1.0 * 1.3759)
    ensures 137.5 <= 100.0 / 1.0 * 1.3759 < 137.6
  {
    EuroToDollarDigits();
    SampleShaped(d);
    SampleFirstDay(d);
    ConvertAtSampleRates(Sample(d), d);
  }

  /** Without a target the amount is converted to the reference currency:
      100 USD is `100 / 1.3759` EUR, which prints as `72.67...`. */
  lemma {:induction false} ExampleDefaultTarget(d: Date)
    ensures Convert(Sample(d), 100.0, "USD", None, Some(d)) == Success(100.0 / 1.3759 * 1.0)
    ensures 72.67 <= 100.0 / 1.3759 * 1.0 < 72.68
  {
    DollarToEuroDigits();
    SampleShaped(d);
    SampleFirstDay(d);
    ConvertAtSampleRates(Sample(d), d);
  }

  /** A day inside the bounds with no BGN rate raises RateNotFoundError when
      missing rates are not filled. */
  lemma {:induction false} ExampleMissingRate(d: Date)
    ensures Convert(Sample(d), 100.0, "BGN", None, Some(d + 1)) == Failure(Lookup(NoRate("BGN", d + 1)))
  {
    SampleShaped(d);
    SampleGap(d);
    assert Convert(Sample(d), 100.0, "BGN", None, Some(d + 1)) == ConvertOn(Sample(d), 100.0, "BGN", "EUR", d + 1);
  }

  /** The two conversions of the examples, on any converter that holds the
      sample's rates for the day. */
  lemma {:induction false} ConvertAtSampleRates(conv: Converter, d: Date)
    requires Shaped(conv) && "USD" in conv.currencies && "EUR" in conv.currencies
    requires GetRate(conv, "USD", d) == Success(1.3759) && GetRate(conv, "EUR", d) == Success(1.0)
    ensures Convert(conv, 100.0, "EUR", Some("USD"), Some(d)) == Success(100.0 / 1.0 * 1.3759)
    ensures Convert(conv, 100.0, "USD", None, Some(d)) == Success(100.0 / 1.3759 * 1.0)
  {
    ConvertRates(conv, 100.0, "EUR", "USD", d, 1.0, 1.3759);
    ConvertRates(conv, 100.0, "USD", "EUR", d, 1.3759, 1.0);
    ConvertDefaults(conv, 100.0, "USD", None, Some(d));
  }

  /** The printed prefix `137.5...` admits the sample's exact product. */
  lemma {:induction false} EuroToDollarDigits()
    ensures 137.5 <= 100.0 / 1.0 * 1.3759 < 137.6
  {
  }

  /** The printed prefix `72.67...` admits the sample's exact quotient. */
  lemma {:induction false} DollarToEuroDigits()
    ensures 72.67 <= 100.0 / 1.3759 * 1.0 < 72.68
  {
  }
}
