/** `_get_rate` and `convert`: looking up one currency's rate on a date, with
    the out-of-bounds fallback, and converting an amount between two
    currencies through the reference currency. */
module Conversion {
  import opened Wrappers
  import opened Dates
  import opened Rates

  /** The date `fallback_on_wrong_date` substitutes for one outside the
      bounds: the nearest bound. */
  function Clamp(b: Bounds, date: Date): (d: Date)
    requires b.first <= b.last
    ensures b.Contains(d)
    ensures b.Contains(date) ==> d == date
    ensures date < b.first ==> d == b.first
    ensures b.last < date ==> d == b.last
  {
    if date < b.first then b.first else if date > b.last then b.last else date
  }

  /** The rate stored for `currency` on `date`, the second half of
      `_get_rate`: an explicit `None` has no rate. */
  function Stored(conv: Converter, currency: Currency, date: Date): (r: Result<real, RateError>)
  {
    if currency !in conv.rates || date !in conv.rates[currency] then Failure(NoKey(currency, date))
    else match conv.rates[currency][date]
      case Some(v) => Success(v)
      case None => Failure(NoRate(currency, date))
  }

  /** `_get_rate`: the reference currency is worth 1; a date the series lacks
      is an error unless `fallback_on_wrong_date` moves it to the nearest
      bound. `_rates` is a `defaultdict`, so an unknown currency has an empty
      series and fails on its missing bounds. */
  function GetRate(conv: Converter, currency: Currency, date: Date): (r: Result<real, RateError>)
    ensures currency == conv.cfg.refCurrency ==> r == Success(1.0)
    ensures r.Success? && currency != conv.cfg.refCurrency ==>
              currency in conv.rates && exists d :: d in conv.rates[currency] && conv.rates[currency][d] == Some(r.value)
  {
    if currency == conv.cfg.refCurrency then Success(1.0)
    else if currency in conv.rates && date in conv.rates[currency] then Stored(conv, currency, date)
    else if currency !in conv.bounds then Failure(NoKey(currency, date))
    else
      var b := conv.bounds[currency];
      if !conv.cfg.fallbackOnWrongDate then Failure(OutOfBounds(currency, date, b))
      else if date < b.first then Stored(conv, currency, b.first)
      else if date > b.last then Stored(conv, currency, b.last)
      else Failure(ShouldNeverHappen)
  }

  /** A failed rate lookup, as `convert` lets it propagate. */
  function AsConvert(r: Result<real, RateError>): (c: Result<real, ConvertError>)
    ensures r.Success? ==> c == Success(r.value)
    ensures r.Failure? ==> c == Failure(Lookup(r.error))
  {
    match r
    case Success(v) => Success(v)
    case Failure(e) => Failure(Lookup(e))
  }

  /** `convert`: both currencies must be supported; without a date, the
      source currency's last date is used; then the amount goes through the
      reference currency. */
  function Convert(conv: Converter, amount: real, currency: Currency, target: Option<Currency>, date: Option<Date>)
    : (r: Result<real, ConvertError>)
    requires Shaped(conv)
    ensures currency !in conv.currencies ==> r == Failure(Unsupported(currency))
    ensures currency in conv.currencies && target.Some? && target.value !in conv.currencies ==>
              r == Failure(Unsupported(target.value))
  {
    var to := if target.Some? then target.value else DefaultTarget;
    if currency !in conv.currencies then Failure(Unsupported(currency))
    else if to !in conv.currencies then Failure(Unsupported(to))
    else ConvertOn(conv, amount, currency, to, if date.Some? then date.value else conv.bounds[currency].last)
  }

  /** The arithmetic of `convert` once the currencies and the date are
      settled: `amount / r0 * r1`, the source currency's rate `r0` looked up
      first. */
  function ConvertOn(conv: Converter, amount: real, currency: Currency, to: Currency, date: Date)
    : (r: Result<real, ConvertError>)
    ensures GetRate(conv, currency, date).Failure? ==> r == Failure(Lookup(GetRate(conv, currency, date).error))
    ensures GetRate(conv, currency, date).Success? && GetRate(conv, to, date).Failure? ==>
              r == Failure(Lookup(GetRate(conv, to, date).error))
  {
    var r0 :- AsConvert(GetRate(conv, currency, date));
    var r1 :- AsConvert(GetRate(conv, to, date));
    if r0 == 0.0 then Failure(DivisionByZero)
    else Success(amount / r0 * r1)
  }
}
