/** Properties of a whole load: the bounds, the gap handling of each
    currency, when loading fails and with which error, and the invariant a
    successful load leaves behind. */
module LoaderProofs {
  import opened Wrappers
  import opened Dates
  import opened Lex
  import opened Rates
  import opened GapFill
  import opened GapFillProofs
  import opened LastKnownProofs
  import opened Loader
  import opened RowProofs

  /** The table of observed rates read from the lines after the header. */
  function Table(cfg: Config, p: Parsers, lines: seq<string>): Result<Observed, LoadError>
    requires |lines| > 0
  {
    ReadRows(cfg, p, Header(lines[0]), Rows(lines[1..]), |lines| - 1)
  }

  // ---------------------------------------------------------------------
  // `_compute_bounds`

  /** `b` runs from the earliest to the latest date of `o`. */
  predicate Tight(o: map<Date, real>, b: Bounds) {
    b.first in o && b.last in o && forall d :: d in o ==> b.Contains(d)
  }

  /** `b` runs from the earliest to the latest date of any currency. */
  predicate Spans(obs: Observed, b: Bounds) {
    && (exists c :: c in obs && b.first in obs[c])
    && (exists c :: c in obs && b.last in obs[c])
    && forall c, d :: c in obs && d in obs[c] ==> b.Contains(d)
  }

  lemma {:induction false} SpanSpans(obs: Observed)
    requires Proper(obs) && obs != map[]
    ensures Spans(obs, Span(OwnBounds(obs)))
  {
    var own := OwnBounds(obs);
    SpanEncloses(own);
    var c1 :| c1 in own && Span(own).first == own[c1].first;
    var c2 :| c2 in own && Span(own).last == own[c2].last;
    assert Span(own).first in obs[c1] && Span(own).last in obs[c2];
    forall c, d | c in obs && d in obs[c]
      ensures Span(own).Contains(d)
    {
      assert own[c].Contains(d);
    }
  }

  /** Each loaded currency other than the reference one spans exactly its
      observed dates; the reference currency spans every loaded date. */
  lemma {:induction false} ComputeBoundsSpec(obs: Observed, ref: Currency)
    requires ComputeBounds(obs, ref).Success?
    ensures forall c :: c in obs && c != ref ==> Tight(obs[c], ComputeBounds(obs, ref).value[c])
    ensures Spans(obs, ComputeBounds(obs, ref).value[ref])
  {
    var own := OwnBounds(obs);
    assert ComputeBounds(obs, ref).value == own[ref := Span(own)];
    SpanSpans(obs);
  }

  /** A span starts no later and ends no earlier than the bounds of any one
      currency. */
  lemma {:induction false} SpansEncloses(obs: Observed, s: Bounds, c: Currency, b: Bounds)
    requires Spans(obs, s) && c in obs && Tight(obs[c], b)
    ensures s.first <= b.first && b.last <= s.last
  {
    assert s.Contains(b.first) && s.Contains(b.last);
  }

  /** A span is never empty. */
  lemma {:induction false} SpansOrdered(obs: Observed, s: Bounds)
    requires Spans(obs, s)
    ensures s.first <= s.last
  {
    var c :| c in obs && s.first in obs[c];
    assert s.Contains(s.first);
  }

  // ---------------------------------------------------------------------
  // Gap handling of one currency

  /** The gap handling of one series: without the fallback flag the series is
      kept as is (and the method is not looked at); with it, an unknown
      method raises ValueError, and a known one fails with UnboundLocalError
      exactly when the series starts with a gap. A success keeps the dates
      and the observed rates and, with the flag, leaves no gap. */
  lemma {:induction false} FillSeriesSpec(cfg: Config, m: Series)
    ensures !cfg.fallbackOnMissingRate ==> FillSeries(cfg, m) == Success(m)
    ensures cfg.fallbackOnMissingRate && !KnownMethod(cfg.fallbackMethod) ==>
              FillSeries(cfg, m) == Failure(UnknownMethod(cfg.fallbackMethod))
    ensures cfg.fallbackOnMissingRate && KnownMethod(cfg.fallbackMethod) ==>
              (FillSeries(cfg, m).Failure? <==> m != map[] && m[SetMin(m.Keys)].None?)
    ensures cfg.fallbackOnMissingRate && KnownMethod(cfg.fallbackMethod) && FillSeries(cfg, m).Failure? ==>
              FillSeries(cfg, m).error == UnboundLocal
    ensures FillSeries(cfg, m).Success? ==>
              && FillSeries(cfg, m).value.Keys == m.Keys
              && forall d :: d in m && m[d].Some? ==> FillSeries(cfg, m).value[d] == m[d]
    ensures cfg.fallbackOnMissingRate && FillSeries(cfg, m).Success? ==>
              forall d :: d in m ==> FillSeries(cfg, m).value[d].Some?
  {
    if cfg.fallbackOnMissingRate && KnownMethod(cfg.fallbackMethod) {
      LinearFillsGaps(m);
      LastKnownFillsGaps(m);
    }
  }

  /** What a known gap-filling method does to a series `m`, `f` being its
      outcome: it fails, with UnboundLocalError, exactly when the series
      starts with a gap, and otherwise keeps the dates and the observed
      rates and leaves no gap. */
  predicate FillsGaps(m: Series, f: Result<Series, LoadError>) {
    && (f.Failure? <==> m != map[] && m[SetMin(m.Keys)].None?)
    && (f.Failure? ==> f.error == UnboundLocal)
    && (f.Success? ==>
          && f.value.Keys == m.Keys
          && (forall d :: d in m && m[d].Some? ==> f.value[d] == m[d])
          && (forall d :: d in m ==> f.value[d].Some?))
  }

  lemma {:induction false} LinearFillsGaps(m: Series)
    ensures FillsGaps(m, LinearInterpolation(m))
  {
    LinearInterpolationFails(m);
    if m != map[] && m[SetMin(m.Keys)].Some? {
      SortedKeysHead(m.Keys);
      LinearInterpolationKeepsObserved(m, SortedKeys(m.Keys));
    }
  }

  lemma {:induction false} LastKnownFillsGaps(m: Series)
    ensures FillsGaps(m, LastKnown(m))
  {
    LastKnownFails(m);
    if m != map[] && m[SetMin(m.Keys)].Some? {
      SortedKeysHead(m.Keys);
      LastKnownKeepsObserved(m, SortedKeys(m.Keys));
    }
  }

  /** A materialised series starts on its first bound, which holds a rate
      exactly when that date was observed. */
  lemma {:induction false} MaterialiseStart(obs: map<Date, real>, b: Bounds)
    requires b.first <= b.last
    requires forall d :: d in obs ==> b.Contains(d)
    ensures Materialise(obs, b) != map[]
    ensures SetMin(Materialise(obs, b).Keys) == b.first
    ensures Materialise(obs, b)[b.first].Some? <==> b.first in obs
  {
    MaterialiseSpec(obs, b);
    assert b.first in Materialise(obs, b).Keys;
  }

  /** The error a failing gap handling reports under `cfg`. */
  function FillError(cfg: Config): LoadError {
    if KnownMethod(cfg.fallbackMethod) then UnboundLocal else UnknownMethod(cfg.fallbackMethod)
  }

  /** A materialised series: the days of `b`, with the rates of `o` and
      `None` elsewhere. */
  predicate MaterialisedFrom(m: Series, o: map<Date, real>, b: Bounds) {
    && m.Keys == Interval(b.first, b.last)
    && (forall d :: d in o ==> d in m && m[d] == Some(o[d]))
    && (forall d :: d in m && d !in o ==> m[d] == None)
  }

  lemma {:induction false} MaterialiseIsMaterialised(o: map<Date, real>, b: Bounds)
    requires forall d :: d in o ==> b.Contains(d)
    ensures MaterialisedFrom(Materialise(o, b), o, b)
  {
    MaterialiseSpec(o, b);
  }

  /** The earliest day of a non-empty interval is its first. */
  lemma {:induction false} IntervalMin(first: Date, last: Date)
    requires first <= last
    ensures Interval(first, last) != {} && SetMin(Interval(first, last)) == first
  {
    assert first in Interval(first, last);
  }

  /** Gap handling of a materialised series. */
  lemma {:induction false} FillMaterialised(cfg: Config, m: Series, o: map<Date, real>, b: Bounds)
    requires b.first <= b.last && MaterialisedFrom(m, o, b)
    ensures var f := FillSeries(cfg, m);
            && (f.Failure? <==> (cfg.fallbackOnMissingRate &&
                  (!KnownMethod(cfg.fallbackMethod) || b.first !in o)))
            && (f.Failure? ==> f.error == FillError(cfg))
            && (f.Success? ==>
                  && f.value.Keys == Interval(b.first, b.last)
                  && (forall d :: d in o ==> d in f.value && f.value[d] == Some(o[d]))
                  && (cfg.fallbackOnMissingRate ==> forall d :: d in f.value ==> f.value[d].Some?))
  {
    IntervalMin(b.first, b.last);
    assert m != map[] && SetMin(m.Keys) == b.first;
    assert m[b.first].Some? <==> b.first in o;
    FillSeriesSpec(cfg, m);
  }

  /** Gap handling of a currency's observed rates over bounds that enclose
      them: it fails only with the fallback flag set, for an unknown method
      or when the first bound is not an observed date. A success holds
      exactly the bounds' days, every observed rate, and, with the flag, no
      gap. */
  lemma {:induction false} HandleSpec(cfg: Config, o: map<Date, real>, b: Bounds)
    requires b.first <= b.last && forall d :: d in o ==> b.Contains(d)
    ensures var f := HandleCurrency(cfg)(o, b);
            && (f.Failure? <==> (cfg.fallbackOnMissingRate &&
                  (!KnownMethod(cfg.fallbackMethod) || b.first !in o)))
            && (f.Failure? ==> f.error == FillError(cfg))
            && (f.Success? ==>
                  && f.value.Keys == Interval(b.first, b.last)
                  && (forall d :: d in o ==> d in f.value && f.value[d] == Some(o[d]))
                  && (cfg.fallbackOnMissingRate ==> forall d :: d in f.value ==> f.value[d].Some?))
  {
    MaterialiseIsMaterialised(o, b);
    FillMaterialised(cfg, Materialise(o, b), o, b);
  }

  // ---------------------------------------------------------------------
  // The loop over currencies

  /** The loop over currencies succeeds exactly when every currency's step
      does; it then holds each currency's result, and otherwise fails with
      the error of a currency whose step fails. */
  lemma {:induction false} FillAllSpec(handle: (map<Date, real>, Bounds) -> Result<Series, LoadError>, obs: Observed,
                                       bounds: map<Currency, Bounds>, order: seq<Currency>, i: nat)
    requires i <= |order|
    requires forall k :: 0 <= k < |order| ==> order[k] in obs && order[k] in bounds
    ensures FillAll(handle, obs, bounds, order, i).Success? <==>
              forall k :: 0 <= k < i ==> handle(obs[order[k]], bounds[order[k]]).Success?
    ensures FillAll(handle, obs, bounds, order, i).Success? ==>
              forall c :: c in FillAll(handle, obs, bounds, order, i).value ==>
                c in obs && c in bounds &&
                handle(obs[c], bounds[c]) == Success(FillAll(handle, obs, bounds, order, i).value[c])
    ensures FillAll(handle, obs, bounds, order, i).Failure? ==>
              exists k :: 0 <= k < i &&
                handle(obs[order[k]], bounds[order[k]]) == Failure(FillAll(handle, obs, bounds, order, i).error)
  {
    FillAllSucceeds(handle, obs, bounds, order, i);
    FillAllHolds(handle, obs, bounds, order, i);
    FillAllError(handle, obs, bounds, order, i);
  }

  lemma {:induction false} FillAllSucceeds(handle: (map<Date, real>, Bounds) -> Result<Series, LoadError>, obs: Observed,
                  bounds: map<Currency, Bounds>, order: seq<Currency>, i: nat)
    requires i <= |order|
    requires forall k :: 0 <= k < |order| ==> order[k] in obs && order[k] in bounds
    ensures FillAll(handle, obs, bounds, order, i).Success? <==>
              forall k :: 0 <= k < i ==> handle(obs[order[k]], bounds[order[k]]).Success?
  {
    if i > 0 {
      FillAllSucceeds(handle, obs, bounds, order, i - 1);
      var prev := FillAll(handle, obs, bounds, order, i - 1);
      if prev.Success? {
        var h := handle(obs[order[i - 1]], bounds[order[i - 1]]);
        if h.Success? {
          FillAllExtends(handle, obs, bounds, order, i, prev.value, h.value);
        } else {
          assert FillAll(handle, obs, bounds, order, i) == Failure(h.error);
        }
      } else {
        assert FillAll(handle, obs, bounds, order, i) == Failure(prev.error);
      }
    }
  }

  lemma {:induction false} FillAllHolds(handle: (map<Date, real>, Bounds) -> Result<Series, LoadError>, obs: Observed,
                  bounds: map<Currency, Bounds>, order: seq<Currency>, i: nat)
    requires i <= |order|
    requires forall k :: 0 <= k < |order| ==> order[k] in obs && order[k] in bounds
    ensures FillAll(handle, obs, bounds, order, i).Success? ==>
              forall c :: c in FillAll(handle, obs, bounds, order, i).value ==>
                c in obs && c in bounds &&
                handle(obs[c], bounds[c]) == Success(FillAll(handle, obs, bounds, order, i).value[c])
  {
    if i > 0 && FillAll(handle, obs, bounds, order, i).Success? {
      FillAllHolds(handle, obs, bounds, order, i - 1);
      var prev := FillAll(handle, obs, bounds, order, i - 1);
      var h := handle(obs[order[i - 1]], bounds[order[i - 1]]);
      assert prev.Success? && h.Success?;
      FillAllExtends(handle, obs, bounds, order, i, prev.value, h.value);
    }
  }

  lemma {:induction false} FillAllError(handle: (map<Date, real>, Bounds) -> Result<Series, LoadError>, obs: Observed,
                  bounds: map<Currency, Bounds>, order: seq<Currency>, i: nat)
    requires i <= |order|
    requires forall k :: 0 <= k < |order| ==> order[k] in obs && order[k] in bounds
    ensures FillAll(handle, obs, bounds, order, i).Failure? ==>
              exists k :: 0 <= k < i &&
                handle(obs[order[k]], bounds[order[k]]) == Failure(FillAll(handle, obs, bounds, order, i).error)
  {
    if i > 0 && FillAll(handle, obs, bounds, order, i).Failure? {
      var prev := FillAll(handle, obs, bounds, order, i - 1);
      if prev.Failure? {
        FillAllError(handle, obs, bounds, order, i - 1);
        assert FillAll(handle, obs, bounds, order, i) == Failure(prev.error);
      } else {
        var h := handle(obs[order[i - 1]], bounds[order[i - 1]]);
        assert FillAll(handle, obs, bounds, order, i) == Failure(h.error);
      }
    }
  }

  /** A successful step of the loop adds its currency's series to those of
      the earlier steps. */
  lemma {:induction false} FillAllExtends(handle: (map<Date, real>, Bounds) -> Result<Series, LoadError>, obs: Observed,
                                          bounds: map<Currency, Bounds>, order: seq<Currency>, i: nat,
                                          acc: map<Currency, Series>, s: Series)
    requires 0 < i <= |order|
    requires forall k :: 0 <= k < |order| ==> order[k] in obs && order[k] in bounds
    requires FillAll(handle, obs, bounds, order, i - 1) == Success(acc)
    requires handle(obs[order[i - 1]], bounds[order[i - 1]]) == Success(s)
    ensures FillAll(handle, obs, bounds, order, i) == Success(acc[order[i - 1] := s])
  {
  }

  /** The loop over every currency fails exactly when some currency's step
      fails, and then with the one error all failing steps share. */
  lemma {:induction false} FillAllFails(handle: (map<Date, real>, Bounds) -> Result<Series, LoadError>, obs: Observed,
                     bounds: map<Currency, Bounds>, order: seq<Currency>, failing: set<Currency>, e: LoadError)
    requires forall k :: 0 <= k < |order| ==> order[k] in obs && order[k] in bounds
    requires forall c :: c in obs ==> c in order
    requires failing <= obs.Keys
    requires forall c :: c in obs ==> (handle(obs[c], bounds[c]).Failure? <==> c in failing)
    requires forall c :: c in obs && handle(obs[c], bounds[c]).Failure? ==> handle(obs[c], bounds[c]).error == e
    ensures FillAll(handle, obs, bounds, order, |order|).Failure? <==> failing != {}
    ensures FillAll(handle, obs, bounds, order, |order|).Failure? ==>
              FillAll(handle, obs, bounds, order, |order|).error == e
  {
    FillAllSpec(handle, obs, bounds, order, |order|);
    if failing != {} {
      var c :| c in failing;
      var k :| 0 <= k < |order| && order[k] == c;
      assert handle(obs[order[k]], bounds[order[k]]).Failure?;
    }
    if FillAll(handle, obs, bounds, order, |order|).Failure? {
      var k :| 0 <= k < |order| && handle(obs[order[k]], bounds[order[k]]).Failure?;
      assert order[k] in failing;
    }
  }

  // ---------------------------------------------------------------------
  // A whole load

  /** Some currency has a date before every date of the reference currency,
      which then also is a data column. */
  predicate StartsBeforeRef(obs: Observed, ref: Currency) {
    ref in obs && exists c, d :: c in obs && d in obs[c] && forall e :: e in obs[ref] ==> d < e
  }

  /** A span starts off the reference currency's dates exactly when another
      currency starts before it. */
  lemma {:induction false} RefStart(obs: Observed, ref: Currency, s: Bounds)
    requires ref in obs && Spans(obs, s)
    ensures s.first !in obs[ref] <==> StartsBeforeRef(obs, ref)
  {
    if s.first !in obs[ref] {
      SpanStartsBeforeRef(obs, ref, s);
    }
    if StartsBeforeRef(obs, ref) {
      RefStartsLater(obs, ref, s);
    }
  }

  /** A span starting off the reference currency's dates starts before all
      of them. */
  lemma {:induction false} SpanStartsBeforeRef(obs: Observed, ref: Currency, s: Bounds)
    requires ref in obs && Spans(obs, s) && s.first !in obs[ref]
    ensures StartsBeforeRef(obs, ref)
  {
    var c :| c in obs && s.first in obs[c];
    forall e | e in obs[ref]
      ensures s.first < e
    {
      assert s.Contains(e);
    }
  }

  /** A date before all of the reference currency's lies in the span, so the
      span does not start on one of them. */
  lemma {:induction false} RefStartsLater(obs: Observed, ref: Currency, s: Bounds)
    requires ref in obs && Spans(obs, s) && StartsBeforeRef(obs, ref)
    ensures s.first !in obs[ref]
  {
    var c, d :| c in obs && d in obs[c] && forall e :: e in obs[ref] ==> d < e;
    assert s.Contains(d);
  }

  /** The bounds a load computes for a loaded currency. */
  predicate LoadedBounds(obs: Observed, ref: Currency, c: Currency, b: Bounds) {
    && c in obs
    && (c != ref ==> Tight(obs[c], b))
    && (c == ref ==> Spans(obs, b))
  }

  /** One loaded currency's step: it fails only with the fallback flag set,
      for an unknown method or, for the reference currency, when another
      currency starts earlier. A success holds exactly the bounds' days,
      every observed rate, and, with the flag, no gap. */
  lemma {:induction false} LoadedFill(cfg: Config, obs: Observed, c: Currency, b: Bounds)
    requires LoadedBounds(obs, cfg.refCurrency, c, b)
    ensures var f := HandleCurrency(cfg)(obs[c], b);
            && (f.Failure? <==> (cfg.fallbackOnMissingRate &&
                  (!KnownMethod(cfg.fallbackMethod) || (c == cfg.refCurrency && StartsBeforeRef(obs, c)))))
            && (f.Failure? ==> f.error == FillError(cfg))
            && (f.Success? ==>
                  && f.value.Keys == Interval(b.first, b.last)
                  && (forall d :: d in obs[c] ==> d in f.value && f.value[d] == Some(obs[c][d]))
                  && (cfg.fallbackOnMissingRate ==> forall d :: d in f.value ==> f.value[d].Some?))
  {
    if c == cfg.refCurrency {
      SpansOrdered(obs, b);
      RefStart(obs, c, b);
    } else {
      assert b.Contains(b.first);
    }
    HandleSpec(cfg, obs[c], b);
  }

  /** Once the bounds are known, building fails exactly as the loop over
      the sorted currencies does. */
  lemma {:induction false} BuildSteps(cfg: Config, obs: Observed)
    requires ComputeBounds(obs, cfg.refCurrency).Success?
    ensures var bounds := ComputeBounds(obs, cfg.refCurrency).value;
            var order := Sorted(obs.Keys);
            var rates := FillAll(HandleCurrency(cfg), obs, bounds, order, |order|);
            && (Build(cfg, obs).Failure? <==> rates.Failure?)
            && (rates.Failure? ==> Build(cfg, obs).error == rates.error)
            && (rates.Success? ==>
                  Build(cfg, obs).value == Converter(cfg, rates.value, bounds, obs.Keys + {cfg.refCurrency}))
  {
  }

  /** The loop over every loaded currency, each with the bounds a load
      computes for it, fails only with the fallback flag set, with
      ValueError for an unknown method and otherwise with UnboundLocalError
      when the reference currency is a data column and another currency
      starts before it. */
  lemma {:induction false} LoopOutcome(cfg: Config, obs: Observed, bounds: map<Currency, Bounds>, order: seq<Currency>)
    requires obs != map[]
    requires forall c :: c in obs <==> c in order
    requires forall k :: 0 <= k < |order| ==> order[k] in obs && order[k] in bounds
    requires forall c :: c in obs ==> c in bounds && LoadedBounds(obs, cfg.refCurrency, c, bounds[c])
    ensures FillAll(HandleCurrency(cfg), obs, bounds, order, |order|).Failure? <==>
              cfg.fallbackOnMissingRate &&
              (!KnownMethod(cfg.fallbackMethod) || StartsBeforeRef(obs, cfg.refCurrency))
    ensures FillAll(HandleCurrency(cfg), obs, bounds, order, |order|).Failure? ==>
              FillAll(HandleCurrency(cfg), obs, bounds, order, |order|).error == FillError(cfg)
  {
    var failing := Failing(cfg, obs);
    LoadedSteps(cfg, obs, bounds);
    FillAllFails(HandleCurrency(cfg), obs, bounds, order, failing, FillError(cfg));
    if cfg.fallbackOnMissingRate && !KnownMethod(cfg.fallbackMethod) {
      var c :| c in obs;
      assert c in failing;
    }
  }

  /** The loaded currencies whose gap handling fails under `cfg`. */
  function Failing(cfg: Config, obs: Observed): (failing: set<Currency>)
    ensures failing <= obs.Keys
  {
    if !cfg.fallbackOnMissingRate then {}
    else if !KnownMethod(cfg.fallbackMethod) then obs.Keys
    else if StartsBeforeRef(obs, cfg.refCurrency) then {cfg.refCurrency}
    else {}
  }

  /** Each loaded currency's step fails exactly when it is one of the
      failing currencies, and then with the error `cfg` determines. */
  lemma {:induction false} LoadedSteps(cfg: Config, obs: Observed, bounds: map<Currency, Bounds>)
    requires forall c :: c in obs ==> c in bounds && LoadedBounds(obs, cfg.refCurrency, c, bounds[c])
    ensures forall c :: c in obs ==> (HandleCurrency(cfg)(obs[c], bounds[c]).Failure? <==> c in Failing(cfg, obs))
    ensures forall c :: c in obs && HandleCurrency(cfg)(obs[c], bounds[c]).Failure? ==>
              HandleCurrency(cfg)(obs[c], bounds[c]).error == FillError(cfg)
  {
    forall c | c in obs
      ensures HandleCurrency(cfg)(obs[c], bounds[c]).Failure? <==> c in Failing(cfg, obs)
      ensures HandleCurrency(cfg)(obs[c], bounds[c]).Failure? ==> HandleCurrency(cfg)(obs[c], bounds[c]).error == FillError(cfg)
    {
      LoadedFill(cfg, obs, c, bounds[c]);
    }
  }

  /** The bounds a load computes are the ones `LoadedBounds` describes. */
  lemma {:induction false} ComputedBoundsLoaded(obs: Observed, ref: Currency)
    requires ComputeBounds(obs, ref).Success?
    ensures forall c :: c in obs ==>
              c in ComputeBounds(obs, ref).value && LoadedBounds(obs, ref, c, ComputeBounds(obs, ref).value[c])
  {
    ComputeBoundsSpec(obs, ref);
  }

  /** What loading does once the table is read: it fails only with the
      fallback flag set, with ValueError for an unknown method and
      otherwise with UnboundLocalError when the reference currency is a data
      column and another currency starts before it. */
  lemma {:induction false} BuildOutcome(cfg: Config, obs: Observed)
    requires obs != map[] && Proper(obs)
    ensures Build(cfg, obs).Failure? <==>
              cfg.fallbackOnMissingRate &&
              (!KnownMethod(cfg.fallbackMethod) || StartsBeforeRef(obs, cfg.refCurrency))
    ensures Build(cfg, obs).Failure? ==> Build(cfg, obs).error == FillError(cfg)
  {
    BuildSteps(cfg, obs);
    ComputedBoundsLoaded(obs, cfg.refCurrency);
    LoopOutcome(cfg, obs, ComputeBounds(obs, cfg.refCurrency).value, Sorted(obs.Keys));
  }

  // ---------------------------------------------------------------------
  // What a successful load leaves behind

  /** The series a loaded currency gets holds exactly the days of its
      bounds, has rates on both bounds unless it is the reference currency,
      and, with the fallback flag, has no gap. */
  lemma {:induction false} SeriesValid(cfg: Config, obs: Observed, c: Currency, b: Bounds, s: Series)
    requires LoadedBounds(obs, cfg.refCurrency, c, b)
    requires HandleCurrency(cfg)(obs[c], b) == Success(s)
    ensures b.first <= b.last && s.Keys == Interval(b.first, b.last)
    ensures c != cfg.refCurrency ==> s[b.first].Some? && s[b.last].Some?
    ensures cfg.fallbackOnMissingRate ==> forall d :: d in s ==> s[d].Some?
  {
    LoadedFill(cfg, obs, c, b);
    if c == cfg.refCurrency {
      SpansOrdered(obs, b);
    } else {
      assert b.Contains(b.first);
    }
  }

  /** A successful loop over every loaded currency handles exactly the loaded
      currencies. */
  lemma {:induction false} LoopKeys(handle: (map<Date, real>, Bounds) -> Result<Series, LoadError>, obs: Observed,
                 bounds: map<Currency, Bounds>, order: seq<Currency>)
    requires forall c :: c in obs <==> c in order
    requires forall k :: 0 <= k < |order| ==> order[k] in obs && order[k] in bounds
    requires FillAll(handle, obs, bounds, order, |order|).Success?
    ensures FillAll(handle, obs, bounds, order, |order|).value.Keys == obs.Keys
    ensures forall c :: c in obs ==> handle(obs[c], bounds[c]) == Success(FillAll(handle, obs, bounds, order, |order|).value[c])
  {
    FillAllSpec(handle, obs, bounds, order, |order|);
    assert order[..|order|] == order;
  }

  /** Every series a successful loop over the loaded currencies produces is
      one `SeriesValid` describes. */
  lemma {:induction false} LoopSeries(cfg: Config, obs: Observed, bounds: map<Currency, Bounds>, order: seq<Currency>)
    requires forall c :: c in obs <==> c in order
    requires forall k :: 0 <= k < |order| ==> order[k] in obs && order[k] in bounds
    requires forall c :: c in obs ==> LoadedBounds(obs, cfg.refCurrency, c, bounds[c])
    requires FillAll(HandleCurrency(cfg), obs, bounds, order, |order|).Success?
    ensures var rates := FillAll(HandleCurrency(cfg), obs, bounds, order, |order|).value;
            && rates.Keys == obs.Keys
            && forall c :: c in rates ==>
                 && bounds[c].first <= bounds[c].last
                 && rates[c].Keys == Interval(bounds[c].first, bounds[c].last)
                 && (c != cfg.refCurrency ==> rates[c][bounds[c].first].Some? && rates[c][bounds[c].last].Some?)
                 && (cfg.fallbackOnMissingRate ==> forall d :: d in rates[c] ==> rates[c][d].Some?)
  {
    var rates := FillAll(HandleCurrency(cfg), obs, bounds, order, |order|).value;
    LoopKeys(HandleCurrency(cfg), obs, bounds, order);
    forall c | c in rates
      ensures bounds[c].first <= bounds[c].last && rates[c].Keys == Interval(bounds[c].first, bounds[c].last)
      ensures c != cfg.refCurrency ==> rates[c][bounds[c].first].Some? && rates[c][bounds[c].last].Some?
      ensures cfg.fallbackOnMissingRate ==> forall d :: d in rates[c] ==> rates[c][d].Some?
    {
      SeriesValid(cfg, obs, c, bounds[c], rates[c]);
    }
  }

  /** Bounds a load computes: the reference currency's enclose every
      other's. */
  lemma {:induction false} BoundsNested(obs: Observed, ref: Currency, bounds: map<Currency, Bounds>)
    requires bounds.Keys == obs.Keys + {ref}
    requires Spans(obs, bounds[ref])
    requires forall c :: c in obs ==> LoadedBounds(obs, ref, c, bounds[c])
    ensures forall c :: c in bounds ==> bounds[ref].first <= bounds[c].first && bounds[c].last <= bounds[ref].last
  {
    forall c | c in bounds
      ensures bounds[ref].first <= bounds[c].first && bounds[c].last <= bounds[ref].last
    {
      if c != ref {
        SpansEncloses(obs, bounds[ref], c, bounds[c]);
      }
    }
  }

  /** The parts a load assembles make a valid converter when each series
      covers its bounds and the reference currency's bounds enclose the
      others. */
  lemma {:induction false} AssembleValid(cfg: Config, loaded: set<Currency>, bounds: map<Currency, Bounds>, rates: map<Currency, Series>)
    requires rates.Keys == loaded && bounds.Keys == loaded + {cfg.refCurrency}
    requires forall c :: c in rates ==>
               && bounds[c].first <= bounds[c].last
               && rates[c].Keys == Interval(bounds[c].first, bounds[c].last)
               && (c != cfg.refCurrency ==> rates[c][bounds[c].first].Some? && rates[c][bounds[c].last].Some?)
               && (cfg.fallbackOnMissingRate ==> forall d :: d in rates[c] ==> rates[c][d].Some?)
    requires forall c :: c in bounds ==>
               bounds[cfg.refCurrency].first <= bounds[c].first && bounds[c].last <= bounds[cfg.refCurrency].last
    ensures Valid(Converter(cfg, rates, bounds, loaded + {cfg.refCurrency}))
  {
  }

  /** A successful loop over every loaded currency, each with the bounds a
      load computes for it, leaves a valid converter. */
  lemma {:induction false} LoopValid(cfg: Config, obs: Observed, bounds: map<Currency, Bounds>, order: seq<Currency>)
    requires forall c :: c in obs <==> c in order
    requires forall k :: 0 <= k < |order| ==> order[k] in obs && order[k] in bounds
    requires bounds.Keys == obs.Keys + {cfg.refCurrency}
    requires Spans(obs, bounds[cfg.refCurrency])
    requires forall c :: c in obs ==> LoadedBounds(obs, cfg.refCurrency, c, bounds[c])
    requires FillAll(HandleCurrency(cfg), obs, bounds, order, |order|).Success?
    ensures Valid(Converter(cfg, FillAll(HandleCurrency(cfg), obs, bounds, order, |order|).value,
                            bounds, obs.Keys + {cfg.refCurrency}))
  {
    LoopSeries(cfg, obs, bounds, order);
    BoundsNested(obs, cfg.refCurrency, bounds);
    AssembleValid(cfg, obs.Keys, bounds, FillAll(HandleCurrency(cfg), obs, bounds, order, |order|).value);
  }

  /** A successful build leaves a valid converter. */
  lemma {:induction false} BuildValid(cfg: Config, obs: Observed)
    ensures Build(cfg, obs).Success? ==> Valid(Build(cfg, obs).value)
  {
    var ref := cfg.refCurrency;
    if Build(cfg, obs).Success? {
      BuildSteps(cfg, obs);
      ComputedBoundsLoaded(obs, ref);
      ComputeBoundsSpec(obs, ref);
      LoopValid(cfg, obs, ComputeBounds(obs, ref).value, Sorted(obs.Keys));
    }
  }

  /** A table that is read is a well-formed one; one that is not reports the
      date or the recorded token that does not parse. */
  lemma {:induction false} TableSpec(cfg: Config, p: Parsers, lines: seq<string>)
    requires |lines| > 0
    ensures Table(cfg, p, lines).Failure? ==>
              Table(cfg, p, lines).error.BadDate? || Table(cfg, p, lines).error.BadRate?
    ensures Table(cfg, p, lines).Success? ==> Proper(Table(cfg, p, lines).value)
  {
    ReadRowsOutcome(cfg, p, Header(lines[0]), Rows(lines[1..]), |lines| - 1);
  }

  lemma {:induction false} ReadRowsOutcome(cfg: Config, p: Parsers, header: seq<Currency>, rows: seq<Row>, i: nat)
    requires i <= |rows|
    ensures ReadRows(cfg, p, header, rows, i).Failure? ==>
              ReadRows(cfg, p, header, rows, i).error.BadDate? || ReadRows(cfg, p, header, rows, i).error.BadRate?
    ensures ReadRows(cfg, p, header, rows, i).Success? ==> Proper(ReadRows(cfg, p, header, rows, i).value)
  {
    ReadRowsSpec(cfg, p, header, rows, i);
  }

  /** Loading reads the table, then builds from it. */
  lemma {:induction false} LoadLinesSteps(cfg: Config, p: Parsers, lines: seq<string>)
    requires |lines| > 0
    ensures Table(cfg, p, lines).Failure? ==> LoadLines(cfg, p, lines) == Failure(Table(cfg, p, lines).error)
    ensures Table(cfg, p, lines).Success? ==> LoadLines(cfg, p, lines) == Build(cfg, Table(cfg, p, lines).value)
  {
  }

  /** A table without rates has no bounds. */
  lemma {:induction false} BuildEmpty(cfg: Config)
    ensures Build(cfg, map[]) == Failure(EmptyMin)
  {
  }

  /** How a load ends: the empty input has no header; a date or recorded
      token that does not parse is reported; a table without rates has no
      bounds; past that, loading fails as `BuildOutcome` says. */
  lemma {:induction false} LoadOutcome(cfg: Config, p: Parsers, lines: seq<string>)
    ensures |lines| == 0 ==> LoadLines(cfg, p, lines) == Failure(MissingHeader)
    ensures |lines| > 0 && Table(cfg, p, lines).Failure? ==>
              LoadLines(cfg, p, lines) == Failure(Table(cfg, p, lines).error)
              && (Table(cfg, p, lines).error.BadDate? || Table(cfg, p, lines).error.BadRate?)
    ensures |lines| > 0 && Table(cfg, p, lines) == Success(map[]) ==>
              LoadLines(cfg, p, lines) == Failure(EmptyMin)
    ensures |lines| > 0 && Table(cfg, p, lines).Success? && Table(cfg, p, lines).value != map[] ==>
              && (LoadLines(cfg, p, lines).Failure? <==>
                    cfg.fallbackOnMissingRate &&
                    (!KnownMethod(cfg.fallbackMethod) || StartsBeforeRef(Table(cfg, p, lines).value, cfg.refCurrency)))
              && (LoadLines(cfg, p, lines).Failure? ==> LoadLines(cfg, p, lines).error == FillError(cfg))
  {
    if |lines| > 0 {
      TableSpec(cfg, p, lines);
      LoadLinesSteps(cfg, p, lines);
      BuildEmpty(cfg);
      var t := Table(cfg, p, lines);
      if t.Success? && t.value != map[] {
        BuildOutcome(cfg, t.value);
      }
    }
  }

  /** A successful load leaves a valid converter. */
  lemma {:induction false} LoadValid(cfg: Config, p: Parsers, lines: seq<string>)
    ensures LoadLines(cfg, p, lines).Success? ==> Valid(LoadLines(cfg, p, lines).value)
  {
    if LoadLines(cfg, p, lines).Success? {
      LoadLinesSteps(cfg, p, lines);
      BuildValid(cfg, Table(cfg, p, lines).value);
    }
  }

  lemma {:induction false} SomeDate(o: map<Date, real>)
    requires o != map[]
    ensures exists d :: d in o
  {
    assert o.Keys != {};
    NonEmptyHasElement(o.Keys);
  }

  /** The currencies a table holds are exactly those with a recorded token. */
  lemma {:induction false} TableCurrencies(cfg: Config, p: Parsers, header: seq<Currency>, rows: seq<Row>, i: nat)
    requires i <= |rows|
    requires ReadRows(cfg, p, header, rows, i).Success?
    ensures forall c :: c in ReadRows(cfg, p, header, rows, i).value <==>
              exists j: nat, k: nat, d :: j < i && Recorded(cfg, p, header, rows, j, k, c, d)
  {
    ReadRowsSpec(cfg, p, header, rows, i);
    var obs := ReadRows(cfg, p, header, rows, i).value;
    forall c | c in obs
      ensures exists j: nat, k: nat, d :: j < i && Recorded(cfg, p, header, rows, j, k, c, d)
    {
      SomeDate(obs[c]);
      var d :| d in obs[c];
      LastWriteSpec(cfg, p, header, rows, c, d, i);
    }
    forall c, j: nat, k: nat, d | j < i && Recorded(cfg, p, header, rows, j, k, c, d)
      ensures c in obs
    {
      LastWriteSpec(cfg, p, header, rows, c, d, i);
    }
  }

  /** A successful build supports the reference currency and the loaded
      ones. */
  lemma {:induction false} BuildCurrencies(cfg: Config, obs: Observed)
    ensures Build(cfg, obs).Success? ==> Build(cfg, obs).value.currencies == obs.Keys + {cfg.refCurrency}
  {
    if Build(cfg, obs).Success? {
      BuildSteps(cfg, obs);
    }
  }

  /** A loaded converter supports the reference currency and exactly the
      currencies of its table, which `TableCurrencies` characterises by
      their recorded tokens. */
  lemma {:induction false} LoadCurrencies(cfg: Config, p: Parsers, lines: seq<string>)
    ensures LoadLines(cfg, p, lines).Success? ==>
              && |lines| > 0 && Table(cfg, p, lines).Success?
              && LoadLines(cfg, p, lines).value.currencies == Table(cfg, p, lines).value.Keys + {cfg.refCurrency}
  {
    if LoadLines(cfg, p, lines).Success? {
      LoadLinesSteps(cfg, p, lines);
      BuildCurrencies(cfg, Table(cfg, p, lines).value);
    }
  }
}
