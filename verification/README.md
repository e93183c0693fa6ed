# currencyconverter core, modelled in Dafny

A model of the `CurrencyConverter` class of the Python package
`currency_converter`. The class reads a CSV table of historical exchange
rates, one row per date and one column per currency, each quoted against a
reference currency ("EUR" by default). It turns the table into a
per-currency, per-date rate table and works out every currency's first and
last date. It can then fill missing rates, by linear interpolation or by
carrying the last known rate forward. `convert` goes through the reference
currency: `amount / rate(from) * rate(to)`. With `fallback_on_wrong_date`,
a date outside a currency's bounds is clamped to the nearest bound.

The model is pure functional Dafny. Every operation is a function returning
`Result<_, Error>`, and each exception the Python code raises is one error
constructor.

| file | module | models |
|---|---|---|
| `wrappers.dfy` | `Wrappers` | `Option` and `Result` |
| `dates.dfy` | `Dates` | dates as day ordinals, `list_dates_between`, `min`/`max`/`sorted` over dates |
| `text.dfy` | `Text` | `str.strip()` and `str.split(",")` |
| `lex.dfy` | `Lex` | Python's string order and `sorted` over currency codes |
| `rates.dfy` | `Rates` | configuration, bounds, the converter's tables, the errors, the invariant a load establishes |
| `gap_fill.dfy` | `GapFill` | `_set_missing_to_none`, `_use_linear_interpolation`, `_use_last_known` |
| `gap_fill_proofs.dfy` | `GapFillProofs` | what linear interpolation computes, against a nearest-neighbour reference |
| `last_known_proofs.dfy` | `LastKnownProofs` | what the last-known fill computes, against the same reference |
| `loader.dfy` | `Loader` | `load_lines`, `_compute_bounds` and the per-currency fill loop |
| `row_proofs.dfy` | `RowProofs` | which tokens `load_lines` records, and under which currency and date |
| `loader_proofs.dfy` | `LoaderProofs` | how a load ends, and the invariant a successful load leaves |
| `converter.dfy` | `Conversion` | `_get_rate`, `convert`, `RateNotFoundError` and the other errors |
| `converter_proofs.dfy` | `ConversionProofs` | properties of `_get_rate` and `convert`, and the documented examples |
| `scenarios.dfy` | `Scenarios` | a worked week of USD rates filled by both methods |

How the Python constructs map to Dafny:

- A date is an `int` day ordinal, so `date + timedelta(days=n)` is `d + n`.
- `parse_date` and the numeric cast (`float`, or `Decimal` with `decimal=True`) are function parameters (`Parsers`). Each returns `None` where the Python call raises.
- Rates are exact `real`s.
- `_rates` is modelled in two stages:
  - the observed table, `map<Currency, map<Date, real>>`, where an N/A token leaves no key;
  - once gaps are materialised, `map<Date, Option<real>>` per currency.
- The constructor flags are the `Config` record.
- `load_lines` receives the lines as a sequence of strings. Lines are stripped and split, header columns are stripped, and the N/A test and the empty-column test follow `load_lines` exactly.
- In `_use_linear_interpolation`, the locals `closest_rate` and `dist` survive from the ascending pass into the descending one. The model keeps that: the descending pass starts from the state the ascending pass ended in.
- Reading such a local before it was ever assigned is Python's UnboundLocalError. It is modelled as the `UnboundLocal` load error.

Behaviour the proofs pin down:

- **The reference currency as a data column.** The reference currency's bounds are the union of all currencies' bounds. Suppose it is also a data column and some other currency starts before it. With `fallback_on_missing_rate` set, its materialised series then starts with a gap. Both fill methods read an unassigned local on that gap, so loading fails with UnboundLocalError. `LoaderProofs.BuildOutcome` proves this is the only way a load with a known method fails after the table is read. Falling back to the single later neighbour would be a natural reading; the code raises, and so does the model.
- **Last-known on the worked week.** USD is observed on the 23rd (18), the 27th (6) and the 29th (2). A reader might expect day 26 to get the later 6 under last-known filling. The code carries the most recent earlier rate, so day 26 gets 18 (`Scenarios.WeekLastKnown`). Linear interpolation gives 9 (`Scenarios.WeekLinear`).
- **Trailing gaps.** A gap after a currency's last observation is filled with that observation's rate. The descending pass inherits the ascending pass's state, and the formula collapses to it.
- **Distances are entry counts.** Fill distances count entries of the sorted series, not calendar days. On a materialised series the two coincide (`GapFillProofs.LinearInterpolationOnInterval`).
- **The default target.** `convert`'s default target is the literal "EUR", whatever the reference currency is.
- **Zero rates.** A zero rate for the source currency is a ZeroDivisionError, modelled as `DivisionByZero`.

## Model

| member | source | states |
|---|---|---|
| Dates.DatesBetween | currency_converter/currency_converter.py:45-50 | `list_dates_between(a, b)` has `1 + (b - a)` days, none when `b < a`. Its k-th day is `a + k`, and a day occurs exactly when it lies in `[a, b]` (inclusive at both ends) |
| Dates.DatesBetweenAscending | currency_converter/currency_converter.py:45-50 | the days come out strictly ascending, so none repeats |
| Dates.SortedInterval | currency_converter/currency_converter.py:237-246 | sorting the days of a materialised series lists them as `list_dates_between` does, so the fill passes visit days in calendar order |
| Text.StripTrims | currency_converter/currency_converter.py:175 | `strip()` returns the input minus its leading and trailing white space (Python's `isspace` set). It is empty exactly when the input is all white space |
| Text.SplitFields | currency_converter/currency_converter.py:172 | no field `split(",")` returns contains a comma |
| Text.JoinSplit | currency_converter/currency_converter.py:172 | `split(",")` loses nothing: joining its fields with commas gives back the line |
| Text.SplitJoin | currency_converter/currency_converter.py:172 | splitting comma-free fields joined by commas gives back the fields |
| Lex.Sorted | currency_converter/currency_converter.py:182 | `sorted` lists every currency code exactly once |
| Lex.SortedIncreasing | currency_converter/currency_converter.py:182 | `sorted` lists the codes in strictly increasing string order |
| Loader.Width | currency_converter/currency_converter.py:174 | `zip(header, line[1:])` yields as many pairs as the shorter side has, never more than either |
| RowProofs.LastCellSpec | currency_converter/currency_converter.py:174-177 | within a row, the pair that finally stores a currency's rate is the last kept pair under that column name |
| RowProofs.RecordCellsSpec | currency_converter/currency_converter.py:174-177 | one row fails exactly when a kept token does not cast, and then with the cast error. Otherwise it adds exactly the kept (non-N/A token, non-empty stripped name) pairs under the row's date, the last pair for a column winning, and changes nothing else |
| RowProofs.LastWriteSpec | currency_converter/currency_converter.py:171-177 | a (currency, date) is recorded by some row exactly when the last such record exists, and every other record comes before it |
| RowProofs.ReadRowsSpec | currency_converter/currency_converter.py:171-177 | reading the rows fails exactly when some date or kept token does not parse. Otherwise the table holds exactly the recorded (currency, date) pairs, each with the cast of its last recorded token |
| LoaderProofs.TableSpec | currency_converter/currency_converter.py:169-177 | a table that fails reports a bad date or a bad rate. One that is read has at least one rate for every currency it holds |
| LoaderProofs.TableCurrencies | currency_converter/currency_converter.py:171-179 | the loaded currencies are exactly those with at least one recorded (non-N/A, named-column) token |
| LoaderProofs.LoadCurrencies | currency_converter/currency_converter.py:179 | after a load, `currencies` is the loaded currencies plus the reference currency |
| Loader.ComputeBounds | currency_converter/currency_converter.py:193-201 | bounds fail (empty `min`) exactly when nothing was loaded or a loaded currency has no date, which reading never produces. Otherwise they cover the loaded currencies and the reference currency |
| LoaderProofs.ComputeBoundsSpec | currency_converter/currency_converter.py:193-201 | each loaded currency other than the reference runs from its earliest to its latest observed date. The reference currency runs from the earliest to the latest date of any currency |
| GapFill.SetMissingToNoneSpec | currency_converter/currency_converter.py:203-210 | the loop adds exactly the listed dates not yet present, as `None`, and leaves every present entry alone |
| GapFill.MaterialiseSpec | currency_converter/currency_converter.py:203-210 | after materialisation the keys are exactly the days of the bounds. Observed rates are unchanged and every added day is `None` |
| GapFill.Step | currency_converter/currency_converter.py:238-244 | one iteration of a fill pass fails exactly on a gap met before any observation, with UnboundLocalError. Otherwise it holds a rate and a distance, and the distance is at least 1 on a gap |
| GapFillProofs.ForwardScanNear | currency_converter/currency_converter.py:237-244 | when the first entry is observed, the ascending pass never fails, and after entry `i` it holds the nearest observed rate at or before `i` and its distance in entries |
| GapFillProofs.BackwardScanNear | currency_converter/currency_converter.py:246-253 | the descending pass never fails once started from an assigned state. After entry `i` it holds the nearest observed rate at or after `i` and its distance. With no later observation it holds the inherited state, its distance grown by the entries passed |
| GapFill.Weighted | currency_converter/currency_converter.py:256-257 | the interpolated rate lies between the two neighbouring rates |
| GapFillProofs.LinearInterpolationFails | currency_converter/currency_converter.py:225-253 | linear interpolation fails, with UnboundLocalError, exactly when the series starts with a gap |
| GapFillProofs.LinearInterpolationFills | currency_converter/currency_converter.py:225-257 | when the first entry is observed, every entry ends up as the reference value: observed entries keep their rate, and a gap gets the distance-weighted average of its nearest observed entries before and after |
| GapFillProofs.LinearInterpolationKeepsObserved | currency_converter/currency_converter.py:225-257 | when the first entry is observed, linear interpolation keeps the dates and the observed rates and leaves no gap |
| GapFillProofs.LinearInterpolationOnInterval | currency_converter/currency_converter.py:225-257 | on a materialised series, a day between observed days `p` and `q` gets `(r_p*(q-d) + r_q*(d-p)) / (q-p)`. A day after the last observation gets that observation's rate |
| LastKnownProofs.LastKnownFails | currency_converter/currency_converter.py:264-278 | last-known filling fails, with UnboundLocalError, exactly when the series starts with a gap |
| LastKnownProofs.LastKnownFills | currency_converter/currency_converter.py:264-278 | when the first entry is observed, every entry ends up with the rate of the nearest observed entry at or before it |
| LastKnownProofs.LastKnownKeepsObserved | currency_converter/currency_converter.py:264-278 | when the first entry is observed, last-known filling keeps the dates and the observed rates and leaves no gap |
| LastKnownProofs.LastKnownOnInterval | currency_converter/currency_converter.py:264-278 | on a materialised series, every day gets the rate of the latest observed day at or before it |
| LoaderProofs.FillSeriesSpec | currency_converter/currency_converter.py:182-191 | without the fallback flag a series is kept as is. With it, an unknown method raises ValueError, and a known one fails exactly when the series starts with a gap. A success keeps dates and observed rates and, with the flag, leaves no gap |
| LoaderProofs.HandleSpec | currency_converter/currency_converter.py:182-191 | one currency's step fails only with the flag set, for an unknown method or when its first bound was not observed. A success holds exactly the bounds' days and every observed rate |
| LoaderProofs.FillAllSpec | currency_converter/currency_converter.py:182-191 | the loop over currencies succeeds exactly when every currency's step does. It then holds each step's result, and otherwise fails with the error of a failing step |
| LoaderProofs.FillAllFails | currency_converter/currency_converter.py:182-191 | the loop fails exactly when some currency fails, and with the error they share |
| LoaderProofs.BuildOutcome | currency_converter/currency_converter.py:179-191 | after the table is read, loading fails only with the fallback flag set. It fails with ValueError for an unknown method. Otherwise it fails with UnboundLocalError exactly when the reference currency is a data column and another currency starts earlier |
| LoaderProofs.LoadOutcome | currency_converter/currency_converter.py:163-191 | empty input raises on the missing header. A bad date or rate is reported, and a table without rates fails in `min`. Past that, loading fails exactly as `BuildOutcome` says |
| LoaderProofs.BuildValid | currency_converter/currency_converter.py:179-210 | a successful build leaves the invariant below (`Valid`) |
| LoaderProofs.LoadValid | currency_converter/currency_converter.py:163-210 | a successful load leaves a converter with this invariant: `currencies` is the loaded currencies plus the reference currency, and so are the bounds' keys. Each series holds exactly its bounds' days, with rates on both bounds. The reference bounds enclose all others, and with the fallback flag there is no gap |
| Conversion.Clamp | currency_converter/currency_converter.py:310-313 | the fallback date is the nearest bound: itself inside the bounds, the first bound before them, the last bound after them |
| Conversion.GetRate | currency_converter/currency_converter.py:299-300 | the reference currency's rate is 1 on any date. Any other successful rate is one stored for that currency |
| ConversionProofs.GetRateLoaded | currency_converter/currency_converter.py:302-329 | for a loaded currency inside its bounds: the stored rate, or RateNotFoundError on an explicit gap. Outside its bounds: RateNotFoundError without `fallback_on_wrong_date`, and the stored rate of the nearest bound with it |
| ConversionProofs.GetRateClamps | currency_converter/currency_converter.py:305-326 | with `fallback_on_wrong_date`, asking outside the bounds is the same as asking on the nearest bound |
| ConversionProofs.GetRateNeverAsserts | currency_converter/currency_converter.py:310-315 | after a load the "should never happen" AssertionError is unreachable, and a supported currency never hits a KeyError |
| ConversionProofs.GetRateTotal | currency_converter/currency_converter.py:286-329 | with both fallbacks on, every supported currency has a rate on every date |
| Conversion.Convert | currency_converter/currency_converter.py:353-355 | an unsupported source currency raises ValueError naming it. A supported source and an unsupported target raise ValueError naming the target |
| Conversion.ConvertOn | currency_converter/currency_converter.py:365-366 | a failed lookup of the source rate, then of the target rate, propagates unchanged (`Lookup`, wrapping whatever `_get_rate` raised) |
| ConversionProofs.ConvertUnsupported | currency_converter/currency_converter.py:353-355 | `convert` raises ValueError exactly when one of the two currencies is unsupported, the target defaulting to "EUR" |
| ConversionProofs.ConvertDefaults | currency_converter/currency_converter.py:331-358 | no target means "EUR". No date means the source currency's last date |
| ConversionProofs.ConvertRates | currency_converter/currency_converter.py:365-368 | with both rates known, the result is `amount / r0 * r1`, and a zero `r0` is a division by zero |
| ConversionProofs.ConvertRefIdentity | currency_converter/currency_converter.py:299-300 | converting the reference currency to itself returns the amount on any date |
| ConversionProofs.ConvertIdentity | currency_converter/currency_converter.py:365-368 | converting a currency to itself returns the amount when its rate is known and non-zero |
| ConversionProofs.ConvertRoundTrip | currency_converter/currency_converter.py:365-368 | converting from `a` to `b` and back returns the amount when both rates are known and non-zero |
| ConversionProofs.ConvertToRef | currency_converter/currency_converter.py:365-368 | converting to the reference currency divides by the source rate |
| ConversionProofs.ConvertFromRef | currency_converter/currency_converter.py:365-368 | converting from the reference currency multiplies by the target rate |
| ConversionProofs.ConvertThroughRef | currency_converter/currency_converter.py:365-368 | a direct conversion equals converting to the reference currency and then from it |
| ConversionProofs.ExampleDollarRate | currency_converter/currency_converter.py:293-294 | with the class documentation's row of 1.3759 USD per EUR, the USD rate prints as `1.375...` (it lies in `[1.375, 1.376)`) |
| ConversionProofs.ExampleEuroToDollar | currency_converter/currency_converter.py:345-346 | at 1.3759 USD per EUR, 100 EUR converts to `100 / 1 * 1.3759` = 137.59 USD, which prints as `137.5...` (it lies in `[137.5, 137.6)`) |
| ConversionProofs.ExampleDefaultTarget | currency_converter/currency_converter.py:347-348 | 100 USD without a target converts to EUR: `100 / 1.3759 * 1`, which prints as `72.67...` (it lies in `[72.67, 72.68)`) |
| ConversionProofs.ExampleMissingRate | currency_converter/currency_converter.py:349-351 | a date inside BGN's bounds with no BGN rate raises RateNotFoundError (`NoRate`, passed through by `Lookup`) for that currency and date |
| Scenarios.WeekLinear | currency_converter/currency_converter.py:225-257 | USD observed at 18, 6 and 2 on days 0, 4 and 6: linear interpolation gives day 3 `(18*1 + 6*3)/4 = 9` |
| Scenarios.WeekLastKnown | currency_converter/currency_converter.py:264-278 | on the same week, last-known filling gives day 3 the 18 of day 0 |

## Left out

- Loading from a file, a URL or a zip archive (`load_file`, `get_lines_from_zip`): I/O. `load_lines` receives the lines.
- `parse_date` and the numeric cast: they are parameters. Only whether each succeeds and what it returns matters to the model.
- Floating point and `Decimal` (`decimal=True`): rates are exact reals, so rounding is not modelled. The documented examples print only a prefix ("1.375...", "137.5...", "72.67..."), so the model states each exact value's range. The sample takes the 1.3759 USD rate from the class documentation's data row (currency_converter/currency_converter.py:83).
- `verbose` and its `print` calls: diagnostics only.
- `memoize` on `list_dates_between`: a cache with no effect on results.
- `date.date()` in `convert`: dates are already day ordinals.
- `_get_rate` on a currency `_rates` lacks: `_rates` is a `defaultdict`, so the lookup inserts an empty series. The model returns the KeyError that follows (`NoKey`) and does not model the insertion. `convert` only looks up supported currencies.
- The `ValueError` text, `RateNotFoundError`'s message and the exception class hierarchy: errors are constructors carrying the currency and date they name.
- `S3CurrencyConverter`, the command line (`__main__.py`) and `converter.py` are not part of this model.
- LoaderProofs.LoadCurrencies: states the supported currencies in terms of the read table. `LoaderProofs.TableCurrencies` characterises that table's currencies by their recorded tokens, one row-range at a time.
