/** `load_lines` and `_compute_bounds`: reading the rate table from CSV
    lines, the per-currency date bounds, and the per-currency gap handling
    `load_lines` runs once the bounds are known. */
module Loader {
  import opened Wrappers
  import opened Text
  import opened Lex
  import opened Dates
  import opened Rates
  import opened GapFill

  /** The two conversions loading relies on: `parse_date` for the first field
      of a row and the numeric cast (`float` or `Decimal`) for a rate token.
      `None` stands for the ValueError either raises. */
  datatype Parsers = Parsers(date: string -> Option<Date>, rate: string -> Option<real>)

  /** A parse that may fail, with the error loading raises for it. */
  function Parsed<T>(o: Option<T>, e: LoadError): (r: Result<T, LoadError>)
    ensures r.Success? <==> o.Some?
    ensures r.Success? ==> r.value == o.value
    ensures r.Failure? ==> r.error == e
  {
    match o
    case Some(v) => Success(v)
    case None => Failure(e)
  }

  /** A split line: `str.split` always yields at least one field, the
      date. */
  type Row = r: seq<string> | |r| >= 1 witness [""]

  /** `line.strip().split(",")`. */
  function Fields(line: string): Row {
    Split(Strip(line))
  }

  /** The header's column names after the date column, each stripped as
      `load_lines` strips it before use. */
  function Header(line: string): seq<Currency> {
    var cols := Fields(line)[1..];
    seq(|cols|, k requires 0 <= k < |cols| => Strip(cols[k]))
  }

  /** The lines after the header, each split into fields. */
  function Rows(body: seq<string>): (rows: seq<Row>)
    ensures |rows| == |body|
  {
    seq(|body|, j requires 0 <= j < |body| => Fields(body[j]))
  }

  /** Number of (currency, token) pairs `zip(header, row[1:])` yields: it
      stops at the shorter of the two. */
  function Width(header: seq<string>, row: seq<string>): (n: nat)
    requires |row| >= 1
    ensures n <= |header| && n + 1 <= |row|
    ensures n == |header| || n + 1 == |row|
  {
    if |header| <= |row| - 1 then |header| else |row| - 1
  }

  /** Whether the `k`-th pair of a row is recorded: the token is not an N/A
      value and the stripped column name is not empty. */
  predicate Kept(na: set<string>, header: seq<Currency>, row: seq<string>, k: nat) {
    && k < |header| && k + 1 < |row|
    && row[k + 1] !in na
    && header[k] != ""
  }

  /** Every currency loaded so far has at least one rate: the table is a
      `defaultdict` whose entries appear with their first rate. */
  predicate Proper(obs: Observed) {
    forall c :: c in obs ==> obs[c] != map[]
  }

  /** The inner loop of `load_lines` over the first `k` pairs of one row
      dated `date`: a recorded token is cast and stored under its stripped
      column name, replacing any rate already there for that date. */
  function RecordCells(na: set<string>, rate: string -> Option<real>, obs: Observed,
                       header: seq<Currency>, row: seq<string>, date: Date, k: nat): (r: Result<Observed, LoadError>)
    requires |row| >= 1 && k <= Width(header, row)
    ensures r.Success? ==> obs.Keys <= r.value.Keys
  {
    if k == 0 then Success(obs)
    else
      var acc :- RecordCells(na, rate, obs, header, row, date, k - 1);
      if Kept(na, header, row, k - 1) then
        var c := header[k - 1];
        var v :- Parsed(rate(row[k]), BadRate(row[k]));
        Success(acc[c := (if c in acc then acc[c] else map[])[date := v]])
      else Success(acc)
  }

  /** The outer loop of `load_lines` over the first `i` rows after the
      header. */
  function ReadRows(cfg: Config, p: Parsers, header: seq<Currency>, rows: seq<Row>, i: nat)
    : (r: Result<Observed, LoadError>)
    requires i <= |rows|
  {
    if i == 0 then Success(map[])
    else
      var acc :- ReadRows(cfg, p, header, rows, i - 1);
      var row := rows[i - 1];
      var date :- Parsed(p.date(row[0]), BadDate(row[0]));
      RecordCells(cfg.naValues, p.rate, acc, header, row, date, Width(header, row))
  }

  /** Each loaded currency's own bounds: its earliest and latest date. */
  function OwnBounds(obs: Observed): (own: map<Currency, Bounds>)
    requires Proper(obs)
    ensures own.Keys == obs.Keys
    ensures forall c :: c in obs ==>
              && own[c].first in obs[c] && own[c].last in obs[c]
              && forall d :: d in obs[c] ==> own[c].Contains(d)
  {
    map c | c in obs :: Bounds(SetMin(obs[c].Keys), SetMax(obs[c].Keys))
  }

  function Firsts(own: map<Currency, Bounds>): set<Date> {
    set c | c in own :: own[c].first
  }

  function Lasts(own: map<Currency, Bounds>): set<Date> {
    set c | c in own :: own[c].last
  }

  /** The bounds of the reference currency: the earliest first date and the
      latest last date over all currencies. */
  function Span(own: map<Currency, Bounds>): Bounds
    requires own != map[]
  {
    SpanDefined(own);
    Bounds(SetMin(Firsts(own)), SetMax(Lasts(own)))
  }

  lemma {:induction false} SpanDefined(own: map<Currency, Bounds>)
    requires own != map[]
    ensures Firsts(own) != {} && Lasts(own) != {}
  {
    var c :| c in own;
    assert own[c].first in Firsts(own);
    assert own[c].last in Lasts(own);
  }

  /** The span encloses every currency's bounds and starts and ends where
      some currency does. */
  lemma {:induction false} SpanEncloses(own: map<Currency, Bounds>)
    requires own != map[]
    ensures forall c :: c in own ==> Span(own).first <= own[c].first && own[c].last <= Span(own).last
    ensures exists c :: c in own && Span(own).first == own[c].first
    ensures exists c :: c in own && Span(own).last == own[c].last
  {
    forall c | c in own
      ensures Span(own).first <= own[c].first && own[c].last <= Span(own).last
    {
      assert own[c].first in Firsts(own);
      assert own[c].last in Lasts(own);
    }
    assert Span(own).first in Firsts(own);
    assert Span(own).last in Lasts(own);
  }

  /** `_compute_bounds`: each loaded currency spans from its earliest to its
      latest date, and the reference currency spans all of them. `min` and
      `max` of nothing raise ValueError. */
  function ComputeBounds(obs: Observed, ref: Currency): (r: Result<map<Currency, Bounds>, LoadError>)
    ensures r.Failure? <==> obs == map[] || !Proper(obs)
    ensures r.Failure? ==> r.error == EmptyMin
    ensures r.Success? ==> r.value.Keys == obs.Keys + {ref}
  {
    if obs == map[] || !Proper(obs) then Failure(EmptyMin)
    else
      var own := OwnBounds(obs);
      Success(own[ref := Span(own)])
  }

  /** The gap handling `load_lines` applies to one materialised series: none
      without `fallback_on_missing_rate`, otherwise the configured method,
      and ValueError for a method it does not know. */
  function FillSeries(cfg: Config, m: Series): Result<Series, LoadError> {
    if !cfg.fallbackOnMissingRate then Success(m)
    else if cfg.fallbackMethod == LinearInterpolationMethod then LinearInterpolation(m)
    else if cfg.fallbackMethod == LastKnownMethod then LastKnown(m)
    else Failure(UnknownMethod(cfg.fallbackMethod))
  }

  /** One currency's step of the loop in `load_lines`: its observed rates
      are materialised over its bounds, then gap-handled. */
  function HandleCurrency(cfg: Config): (map<Date, real>, Bounds) -> Result<Series, LoadError> {
    (o, b) => FillSeries(cfg, Materialise(o, b))
  }

  /** The loop of `load_lines` over the first `i` currencies of `order`,
      applying `handle` to each currency's observed rates and bounds and
      stopping at the first error. */
  function FillAll(handle: (map<Date, real>, Bounds) -> Result<Series, LoadError>, obs: Observed,
                   bounds: map<Currency, Bounds>, order: seq<Currency>, i: nat)
    : (r: Result<map<Currency, Series>, LoadError>)
    requires i <= |order|
    requires forall k :: 0 <= k < |order| ==> order[k] in obs && order[k] in bounds
    ensures r.Success? ==> forall c :: c in r.value <==> c in order[..i]
  {
    if i == 0 then Success(map[])
    else
      var acc :- FillAll(handle, obs, bounds, order, i - 1);
      var c := order[i - 1];
      var s :- handle(obs[c], bounds[c]);
      assert order[..i] == order[..i - 1] + [c];
      Success(acc[c := s])
  }

  /** What `load_lines` does once the table of observed rates is read: the
      bounds, then each currency's series in sorted order. */
  function Build(cfg: Config, obs: Observed): Result<Converter, LoadError> {
    var bounds :- ComputeBounds(obs, cfg.refCurrency);
    var order := Sorted(obs.Keys);
    var rates :- FillAll(HandleCurrency(cfg), obs, bounds, order, |order|);
    Success(Converter(cfg, rates, bounds, obs.Keys + {cfg.refCurrency}))
  }

  /** `load_lines`: the header line, then one line per date. An empty input
      has no header line: `next` raises StopIteration. */
  function LoadLines(cfg: Config, p: Parsers, lines: seq<string>): Result<Converter, LoadError> {
    if |lines| == 0 then Failure(MissingHeader)
    else
      var obs :- ReadRows(cfg, p, Header(lines[0]), Rows(lines[1..]), |lines| - 1);
      Build(cfg, obs)
  }
}
