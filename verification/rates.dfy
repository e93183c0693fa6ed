/** The converter's data: configuration, the per-currency rate table, the
    per-currency date bounds and the errors the core raises. */
module Rates {
  import opened Wrappers
  import opened Dates

  type Currency = string

  /** Names accepted for `fallback_on_missing_rate_method`. */
  const LinearInterpolationMethod: string := "linear_interpolation"
  const LastKnownMethod: string := "last_known"

  /** The default of `convert`'s `new_currency` argument: the literal code
      "EUR", whatever the reference currency is. */
  const DefaultTarget: Currency := "EUR"

  /** Constructor options that influence results (`decimal` and `verbose`
      do not: rates are exact reals here). */
  datatype Config = Config(
    fallbackOnWrongDate: bool,
    fallbackOnMissingRate: bool,
    fallbackMethod: string,
    refCurrency: Currency,
    naValues: set<string>)

  /** The constructor's defaults. */
  const DefaultConfig: Config :=
    Config(false, false, LinearInterpolationMethod, "EUR", {"", "N/A"})

  predicate KnownMethod(name: string) {
    name == LinearInterpolationMethod || name == LastKnownMethod
  }

  /** First and last date of a currency's data. */
  datatype Bounds = Bounds(first: Date, last: Date) {
    predicate Contains(d: Date) {
      first <= d <= last
    }
  }

  /** Rates as loaded: only observed values, so an N/A token leaves no key. */
  type Observed = map<Currency, map<Date, real>>

  /** One currency's rates once gaps are materialised: `None` is a date inside
      the bounds that has no rate (yet). */
  type Series = map<Date, Option<real>>

  /** A loaded converter: `_rates`, `bounds` and `currencies`. */
  datatype Converter = Converter(
    cfg: Config,
    rates: map<Currency, Series>,
    bounds: map<Currency, Bounds>,
    currencies: set<Currency>)

  /** Errors that abort construction. */
  datatype LoadError =
    | MissingHeader           // `next(lines)` on an empty input: StopIteration
    | BadDate(token: string)  // `parse_date` rejects the first field of a row
    | BadRate(token: string)  // the numeric cast rejects a rate token
    | EmptyMin                // `min()`/`max()` of an empty sequence in `_compute_bounds`
    | UnknownMethod(name: string)  // unrecognised fill method: ValueError
    | UnboundLocal            // a fill pass reads a local it never assigned

  /** Errors of `_get_rate`. */
  datatype RateError =
    | OutOfBounds(currency: Currency, date: Date, bounds: Bounds)  // RateNotFoundError
    | NoRate(currency: Currency, date: Date)                       // RateNotFoundError
    | ShouldNeverHappen                                            // AssertionError
    | NoKey(currency: Currency, date: Date)                        // KeyError on a currency or date the tables lack

  /** Errors of `convert`. */
  datatype ConvertError =
    | Unsupported(currency: Currency)  // ValueError: not a supported currency
    | Lookup(cause: RateError)         // `_get_rate` raised: its error propagates unchanged
    | DivisionByZero                   // the source currency's rate is zero

  /** The shape `_get_rate` relies on for `currency`: the reference currency
      needs nothing; any other has a series, bounds, and both bound dates as
      keys of its series. */
  predicate Resolvable(conv: Converter, c: Currency) {
    || c == conv.cfg.refCurrency
    || (&& c in conv.rates
        && c in conv.bounds
        && conv.bounds[c].first in conv.rates[c]
        && conv.bounds[c].last in conv.rates[c])
  }

  /** The shape `convert` relies on: every supported currency has bounds and
      can be resolved. */
  predicate Shaped(conv: Converter) {
    forall c :: c in conv.currencies ==> c in conv.bounds && Resolvable(conv, c)
  }

  /** The invariant a successful load establishes. */
  predicate Valid(conv: Converter) {
    var ref := conv.cfg.refCurrency;
    && conv.currencies == conv.rates.Keys + {ref}
    && conv.bounds.Keys == conv.currencies
    // every series holds exactly the days of its bounds
    && (forall c :: c in conv.rates ==>
          conv.bounds[c].first <= conv.bounds[c].last
          && conv.rates[c].Keys == Interval(conv.bounds[c].first, conv.bounds[c].last))
    // a loaded currency's bounds are observed dates
    && (forall c :: c in conv.rates && c != ref ==>
          conv.rates[c][conv.bounds[c].first].Some?
          && conv.rates[c][conv.bounds[c].last].Some?)
    // the reference currency's bounds enclose every other currency's
    && (forall c :: c in conv.bounds ==>
          conv.bounds[ref].first <= conv.bounds[c].first
          && conv.bounds[c].last <= conv.bounds[ref].last)
    // with missing-rate fallback, every gap has been filled
    && (conv.cfg.fallbackOnMissingRate ==>
          forall c, d :: c in conv.rates && d in conv.rates[c] ==> conv.rates[c][d].Some?)
  }

  lemma {:induction false} ValidIsShaped(conv: Converter)
    requires Valid(conv)
    ensures Shaped(conv)
  {
    forall c | c in conv.currencies
      ensures c in conv.bounds && Resolvable(conv, c)
    {
      if c != conv.cfg.refCurrency {
        var b := conv.bounds[c];
        assert b.first in Interval(b.first, b.last);
        assert b.last in Interval(b.first, b.last);
      }
    }
  }
}
