/** What the fill passes compute: each gap is filled from its nearest
    observed neighbours, observed entries are never touched, and the passes
    fail exactly when a series starts with a gap. */
module GapFillProofs {
  import opened Wrappers
  import opened Dates
  import opened Rates
  import opened GapFill

  /** The state the ascending pass records at entry `i`: the nearest
      observation at or before `i` and its distance in entries. */
  function EarlierNeighbour(vals: seq<Option<real>>, i: nat): (s: Scan)
    requires i < |vals| && vals[0].Some?
    ensures s.Near?
  {
    var p := PrevObserved(vals, i).value;
    Near(vals[p].value, i - p)
  }

  /** The state the descending pass records at entry `i`: the nearest
      observation at or after `i`, or, when there is none, the ascending
      pass's final state advanced by the entries passed. */
  function LaterNeighbour(vals: seq<Option<real>>, start: Scan, i: nat): (s: Scan)
    requires i < |vals| && start.Near?
    ensures s.Near?
  {
    match NextObserved(vals, i)
    case Some(q) => Near(vals[q].value, q - i)
    case None => Near(start.rate, start.dist + (|vals| - i))
  }

  /** The value the linear fill leaves at entry `k`: the descending pass
      starts from the state the ascending pass ends in. */
  function Filled(vals: seq<Option<real>>, k: nat): Option<real>
    requires k < |vals| && vals[0].Some?
  {
    if vals[k].Some? then vals[k]
    else Some(Interpolate(EarlierNeighbour(vals, k), LaterNeighbour(vals, EarlierNeighbour(vals, |vals| - 1), k)))
  }

  lemma {:induction false} ForwardScanCrash(vals: seq<Option<real>>, i: nat)
    requires 0 < i <= |vals| && vals[0].None?
    ensures ForwardScan(vals, i) == Failure(UnboundLocal)
  {
    if i > 1 {
      ForwardScanCrash(vals, i - 1);
    }
  }

  /** When the first entry is observed the ascending pass never fails, and
      after entry `i` it holds the nearest observation at or before `i` and
      its distance in entries. */
  lemma {:induction false} ForwardScanNear(vals: seq<Option<real>>, i: nat)
    requires i < |vals| && vals[0].Some?
    ensures ForwardScan(vals, i + 1) == Success(EarlierNeighbour(vals, i))
  {
    if i > 0 {
      ForwardScanNear(vals, i - 1);
    }
  }

  /** The descending pass, started from `start`, never fails, and after
      reaching entry `i` it holds the nearest observation at or after `i`,
      or `start` advanced by the entries passed when there is none. */
  lemma {:induction false} BackwardScanNear(vals: seq<Option<real>>, start: Scan, i: nat)
    requires i < |vals| && start.Near?
    ensures BackwardScan(vals, start, |vals| - i) == Success(LaterNeighbour(vals, start, i))
    decreases |vals| - i
  {
    if i + 1 < |vals| {
      BackwardScanNear(vals, start, i + 1);
    }
  }

  /** The value the linear fill leaves at every entry, in traversal order. */
  function FilledColumn(vals: seq<Option<real>>): (r: seq<Option<real>>)
    requires 0 < |vals| && vals[0].Some?
    ensures |r| == |vals|
    ensures forall k :: 0 <= k < |vals| ==> r[k] == Filled(vals, k)
  {
    seq(|vals|, k requires 0 <= k < |vals| => Filled(vals, k))
  }

  /** One iteration of the final loop writes the filled value at its entry
      (for an observed entry that is the value already there). */
  lemma {:induction false} WriteBackStep(rates: Series, order: seq<Date>, fwd: Scan, i: nat)
    requires 0 < i <= |order|
    requires forall k :: 0 <= k < |order| ==> order[k] in rates
    requires rates[order[0]].Some? && fwd == EarlierNeighbour(Column(rates, order), |Column(rates, order)| - 1)
    requires WriteBack(rates, order, fwd, i - 1).Success?
    requires WriteBack(rates, order, fwd, i - 1).value.Keys == rates.Keys
    requires WriteBack(rates, order, fwd, i - 1).value[order[i - 1]] == rates[order[i - 1]]
    ensures WriteBack(rates, order, fwd, i)
              == Success(WriteBack(rates, order, fwd, i - 1).value[order[i - 1] := FilledColumn(Column(rates, order))[i - 1]])
  {
    var vals := Column(rates, order);
    var k := i - 1;
    var acc := WriteBack(rates, order, fwd, k).value;
    assert FilledColumn(vals)[k] == Filled(vals, k);
    if vals[k].None? {
      ForwardScanNear(vals, k);
      BackwardScanNear(vals, fwd, k);
      assert |vals| - (i - 1) == |vals| - k;
      assert Filled(vals, k) == Some(Interpolate(EarlierNeighbour(vals, k), LaterNeighbour(vals, fwd, k)));
    } else {
      assert Filled(vals, k) == vals[k] == rates[order[k]];
      assert acc[order[k] := vals[k]] == acc;
    }
  }

  /** `acc` holds `target`'s entries for the first `i` dates of `order` and
      the original values for the rest. */
  predicate Agrees(acc: Series, rates: Series, order: seq<Date>, target: seq<Option<real>>, i: nat) {
    && acc.Keys == rates.Keys && |target| == |order| && i <= |order|
    && (forall j :: 0 <= j < |order| ==> order[j] in rates)
    && (forall j :: 0 <= j < i ==> acc[order[j]] == target[j])
    && (forall j :: i <= j < |order| ==> acc[order[j]] == rates[order[j]])
  }

  /** Writing entry `k` of `target` extends agreement by one entry. */
  lemma {:induction false} ExtendAgreement(rates: Series, order: seq<Date>, target: seq<Option<real>>,
                        acc: Series, k: nat)
    requires k < |order| && NoRepeats(order)
    requires Agrees(acc, rates, order, target, k)
    ensures Agrees(acc[order[k] := target[k]], rates, order, target, k + 1)
  {
    forall j | 0 <= j < k
      ensures order[j] != order[k]
    {
      NoRepeatsApart(order, j, k);
    }
    forall j | k < j < |order|
      ensures order[j] != order[k]
    {
      NoRepeatsApart(order, k, j);
    }
  }

  lemma {:induction false} WriteBackFills(rates: Series, order: seq<Date>, fwd: Scan, i: nat)
    requires i <= |order| && NoRepeats(order)
    requires forall k :: 0 <= k < |order| ==> order[k] in rates
    requires 0 < |order| && rates[order[0]].Some?
    requires fwd == EarlierNeighbour(Column(rates, order), |Column(rates, order)| - 1)
    ensures WriteBack(rates, order, fwd, i).Success?
    ensures Agrees(WriteBack(rates, order, fwd, i).value, rates, order, FilledColumn(Column(rates, order)), i)
  {
    var target := FilledColumn(Column(rates, order));
    if i > 0 {
      var k := i - 1;
      WriteBackFills(rates, order, fwd, k);
      var acc := WriteBack(rates, order, fwd, k).value;
      assert acc[order[k]] == rates[order[k]];
      WriteBackStep(rates, order, fwd, i);
      ExtendAgreement(rates, order, target, acc, k);
    } else {
      assert Agrees(rates, rates, order, target, 0);
    }
  }

  /** Linear interpolation of a series whose first entry is observed: it
      succeeds, keeps the keys and leaves every entry as `Filled` says. */
  lemma {:induction false} LinearInterpolationFills(rates: Series, order: seq<Date>)
    requires order == SortedKeys(rates.Keys)
    requires 0 < |order| && rates[order[0]].Some?
    ensures LinearInterpolation(rates).Success?
    ensures LinearInterpolation(rates).value.Keys == rates.Keys
    ensures forall k :: 0 <= k < |order| ==> order[k] in LinearInterpolation(rates).value
    ensures forall k {:trigger LinearInterpolation(rates).value[order[k]]} :: 0 <= k < |order| ==>
              LinearInterpolation(rates).value[order[k]]
                == Filled(Column(rates, order), k)
  {
    var vals := Column(rates, order);
    ForwardScanNear(vals, |vals| - 1);
    var fwd := EarlierNeighbour(vals, |vals| - 1);
    BackwardScanNear(vals, fwd, 0);
    SortedWriteBackFills(rates, order, fwd);
  }

  /** The final loop over the sorted keys fills every entry. */
  lemma {:induction false} SortedWriteBackFills(rates: Series, order: seq<Date>, fwd: Scan)
    requires order == SortedKeys(rates.Keys)
    requires 0 < |order| && rates[order[0]].Some?
    requires fwd == EarlierNeighbour(Column(rates, order), |Column(rates, order)| - 1)
    ensures WriteBack(rates, order, fwd, |order|).Success?
    ensures Agrees(WriteBack(rates, order, fwd, |order|).value, rates, order, FilledColumn(Column(rates, order)), |order|)
  {
    SortedKeysNoRepeats(rates.Keys);
    WriteBackFills(rates, order, fwd, |order|);
  }

  /** Once the first entry is observed, linear interpolation leaves observed
      entries as they were and no gap behind. */
  lemma {:induction false} LinearInterpolationKeepsObserved(rates: Series, order: seq<Date>)
    requires order == SortedKeys(rates.Keys)
    requires 0 < |order| && rates[order[0]].Some?
    ensures LinearInterpolation(rates).Success?
    ensures LinearInterpolation(rates).value.Keys == rates.Keys
    ensures forall d :: d in rates && rates[d].Some? ==> LinearInterpolation(rates).value[d] == rates[d]
    ensures forall d :: d in rates ==> LinearInterpolation(rates).value[d].Some?
  {
    LinearInterpolationFills(rates, order);
    var vals := Column(rates, order);
    var r := LinearInterpolation(rates).value;
    forall d | d in rates
      ensures r[d].Some? && (rates[d].Some? ==> r[d] == rates[d])
    {
      var k :| 0 <= k < |order| && order[k] == d;
      assert r[order[k]] == Filled(vals, k);
    }
  }

  // ---------------------------------------------------------------------
  // Reference definitions at the level of dates

  /** `d` is a gap whose nearest observed dates are `p` before and `q` after. */
  predicate Gap(m: Series, p: Date, d: Date, q: Date) {
    && p < d < q
    && p in m && d in m && q in m
    && m[p].Some? && m[q].Some?
    && forall x :: p < x < q && x in m ==> m[x].None?
  }

  /** `p` is the nearest observed date at or before `d`. */
  predicate LastObservedAt(m: Series, p: Date, d: Date) {
    && p <= d && p in m && d in m && m[p].Some?
    && forall x :: p < x <= d && x in m ==> m[x].None?
  }

  /** `d` comes after `p`, the last observed date of `m`. */
  predicate AfterLastObserved(m: Series, p: Date, d: Date) {
    && p < d && p in m && d in m && m[p].Some?
    && forall x :: p < x && x in m ==> m[x].None?
  }

  lemma {:induction false} PrevObservedIs(vals: seq<Option<real>>, i: nat, p: nat)
    requires p <= i < |vals| && vals[p].Some?
    requires forall k :: p < k <= i ==> vals[k].None?
    ensures PrevObserved(vals, i) == Some(p)
  {
    if p < i {
      PrevObservedIs(vals, i - 1, p);
    }
  }

  lemma {:induction false} NextObservedIs(vals: seq<Option<real>>, i: nat, q: nat)
    requires i <= q < |vals| && vals[q].Some?
    requires forall k :: i <= k < q ==> vals[k].None?
    ensures NextObserved(vals, i) == Some(q)
    decreases q - i
  {
    if i < q {
      NextObservedIs(vals, i + 1, q);
    }
  }

  lemma {:induction false} NextObservedNone(vals: seq<Option<real>>, i: nat)
    requires i < |vals|
    requires forall k :: i <= k < |vals| ==> vals[k].None?
    ensures NextObserved(vals, i) == None
    decreases |vals| - i
  {
    if i + 1 < |vals| {
      NextObservedNone(vals, i + 1);
    }
  }

  lemma {:induction false} SortedKeysHead(s: set<int>)
    requires s != {}
    ensures SortedKeys(s)[0] == SetMin(s)
  {
  }

  /** Linear interpolation fails, with UnboundLocalError, exactly when the
      series starts with a gap. */
  lemma {:induction false} LinearInterpolationFails(rates: Series)
    ensures LinearInterpolation(rates).Failure? <==> rates != map[] && rates[SetMin(rates.Keys)].None?
    ensures LinearInterpolation(rates).Failure? ==> LinearInterpolation(rates).error == UnboundLocal
  {
    var order := SortedKeys(rates.Keys);
    if rates != map[] {
      SortedKeysHead(rates.Keys);
      var vals := Column(rates, order);
      if vals[0].None? {
        ForwardScanCrash(vals, |vals|);
      } else {
        LinearInterpolationFills(rates, order);
      }
    } else {
      assert order == [];
    }
  }

  /** An entry between two consecutive observations at `i0` and `i1` gets
      their distance-weighted average. */
  lemma {:induction false} FilledGap(vals: seq<Option<real>>, k: nat, i0: nat, i1: nat)
    requires i0 < k < i1 < |vals| && vals[0].Some?
    requires vals[i0].Some? && vals[i1].Some?
    requires forall j :: i0 < j < i1 ==> vals[j].None?
    ensures Filled(vals, k) == Some(Weighted(vals[i0].value, k - i0, vals[i1].value, i1 - k))
  {
    PrevObservedIs(vals, k, i0);
    NextObservedIs(vals, k, i1);
  }

  /** An entry after the last observation, at `i0`, gets that observation. */
  lemma {:induction false} FilledTrailing(vals: seq<Option<real>>, k: nat, i0: nat)
    requires i0 < k < |vals| && vals[0].Some? && vals[i0].Some?
    requires forall j :: i0 < j < |vals| ==> vals[j].None?
    ensures Filled(vals, k) == vals[i0]
  {
    PrevObservedIs(vals, k, i0);
    PrevObservedIs(vals, |vals| - 1, i0);
    NextObservedNone(vals, k);
  }

  /** `vals` lists the values of days `lo`, `lo + 1`, ... of `m` in turn. */
  predicate ListsDays(m: Series, lo: Date, vals: seq<Option<real>>) {
    forall j :: 0 <= j < |vals| ==> HoldsOn(m, lo + j, vals[j])
  }

  /** Day `d` of `m` holds `v`. */
  predicate HoldsOn(m: Series, d: Date, v: Option<real>) {
    d in m && m[d] == v
  }

  /** A column over the consecutive days from `lo` lists their values. */
  lemma {:induction false} ColumnOfDays(m: Series, order: seq<Date>, lo: Date)
    requires forall k :: 0 <= k < |order| ==> order[k] == lo + k && lo + k in m
    ensures |Column(m, order)| == |order|
    ensures ListsDays(m, lo, Column(m, order))
  {
    forall j | 0 <= j < |Column(m, order)|
      ensures HoldsOn(m, lo + j, Column(m, order)[j])
    {
      assert order[j] == lo + j;
    }
  }

  /** On a materialised series the `k`-th key is day `lo + k`. */
  lemma {:induction false} IntervalKeys(m: Series, lo: Date, hi: Date)
    requires lo <= hi && m.Keys == Interval(lo, hi)
    ensures |SortedKeys(m.Keys)| == hi - lo + 1
    ensures forall k :: 0 <= k < |SortedKeys(m.Keys)| ==> SortedKeys(m.Keys)[k] == lo + k
  {
    var order := SortedKeys(m.Keys);
    assert m.Keys == Interval(lo, hi);
    SortedInterval(lo, hi);
    assert order == DatesBetween(lo, hi);
  }

  /** On a materialised series the fill passes read the days in calendar
      order. */
  lemma {:induction false} IntervalColumn(m: Series, lo: Date, hi: Date)
    requires lo <= hi && m.Keys == Interval(lo, hi)
    ensures |Column(m, SortedKeys(m.Keys))| == hi - lo + 1
    ensures ListsDays(m, lo, Column(m, SortedKeys(m.Keys)))
  {
    IntervalKeys(m, lo, hi);
    ColumnOfDays(m, SortedKeys(m.Keys), lo);
  }

  /** `r` holds, at day `lo + k`, the value the linear fill computes for
      entry `k` of `vals`. */
  predicate FilledBy(vals: seq<Option<real>>, r: Series, lo: Date) {
    && 0 < |vals| && vals[0].Some?
    && forall j :: 0 <= j < |vals| ==> HoldsOn(r, lo + j, Filled(vals, j))
  }

  /** When the keys are consecutive days from `lo` and the first is
      observed, linear interpolation leaves at each day the value `Filled`
      gives for it. */
  lemma {:induction false} LinearFillsDays(rates: Series, lo: Date)
    requires 0 < |SortedKeys(rates.Keys)| && lo in rates && rates[lo].Some?
    requires forall k :: 0 <= k < |SortedKeys(rates.Keys)| ==> SortedKeys(rates.Keys)[k] == lo + k
    ensures LinearInterpolation(rates).Success?
    ensures LinearInterpolation(rates).value.Keys == rates.Keys
    ensures FilledBy(Column(rates, SortedKeys(rates.Keys)), LinearInterpolation(rates).value, lo)
  {
    LinearInterpolationFills(rates, SortedKeys(rates.Keys));
    Reindex(SortedKeys(rates.Keys), LinearInterpolation(rates).value, Column(rates, SortedKeys(rates.Keys)), lo);
  }

  /** Values listed by position in `order`, whose `k`-th entry is day
      `lo + k`, are the values of those days. */
  lemma {:induction false} Reindex(order: seq<Date>, r: Series, vals: seq<Option<real>>, lo: Date)
    requires |vals| == |order| && 0 < |vals| && vals[0].Some?
    requires forall k :: 0 <= k < |order| ==> order[k] == lo + k
    requires forall k :: 0 <= k < |order| ==> order[k] in r
    requires forall k {:trigger r[order[k]]} :: 0 <= k < |order| ==>
               r[order[k]] == Filled(vals, k)
    ensures FilledBy(vals, r, lo)
  {
    forall j | 0 <= j < |vals|
      ensures HoldsOn(r, lo + j, Filled(vals, j))
    {
      assert order[j] == lo + j;
      assert r[order[j]] == Filled(vals, j);
    }
  }

  /** The filled value at a gap day, read off a column that lists day
      `lo + j` at step `j`. */
  lemma {:induction false} GapValue(m: Series, lo: Date, vals: seq<Option<real>>, r: Series,
                 p: Date, d: Date, q: Date, k: nat)
    requires 0 < |vals| && vals[0].Some?
    requires ListsDays(m, lo, vals)
    requires Gap(m, p, d, q) && lo <= p && q < lo + |vals|
    requires d == lo + k && k < |vals|
    requires d in r && r[d] == Filled(vals, k)
    ensures r[d] == Some(Weighted(m[p].value, d - p, m[q].value, q - d))
  {
    forall j | p - lo < j < q - lo
      ensures vals[j].None?
    {
      var v := vals[j];
      assert lo + j in m && v == m[lo + j];
    }
    assert vals[p - lo] == m[p] && vals[q - lo] == m[q];
    FilledGap(vals, k, p - lo, q - lo);
  }

  /** The filled value at a day after the last observation. */
  lemma {:induction false} TrailingValue(m: Series, lo: Date, vals: seq<Option<real>>, r: Series,
                      p: Date, d: Date, k: nat)
    requires 0 < |vals| && vals[0].Some?
    requires ListsDays(m, lo, vals)
    requires AfterLastObserved(m, p, d) && lo <= p && d < lo + |vals|
    requires d == lo + k && k < |vals|
    requires d in r && r[d] == Filled(vals, k)
    ensures r[d] == m[p]
  {
    forall j | p - lo < j < |vals|
      ensures vals[j].None?
    {
      var v := vals[j];
      assert lo + j in m && v == m[lo + j];
    }
    assert vals[p - lo] == m[p];
    FilledTrailing(vals, k, p - lo);
  }

  /** Gaps of a column filled into `r` get the distance-weighted average of
      their nearest observed neighbours. */
  lemma {:induction false} GapsFilled(m: Series, lo: Date, hi: Date, vals: seq<Option<real>>, r: Series)
    requires ListsDays(m, lo, vals) && FilledBy(vals, r, lo)
    requires m.Keys == Interval(lo, hi) && |vals| == hi - lo + 1 && r.Keys == m.Keys
    ensures forall p, d, q :: Gap(m, p, d, q) ==> r[d] == Some(Weighted(m[p].value, d - p, m[q].value, q - d))
  {
    forall p, d, q | Gap(m, p, d, q)
      ensures r[d] == Some(Weighted(m[p].value, d - p, m[q].value, q - d))
    {
      GapValue(m, lo, vals, r, p, d, q, d - lo);
    }
  }

  /** Days of a column filled into `r` after its last observation get that
      observation. */
  lemma {:induction false} TrailingFilled(m: Series, lo: Date, hi: Date, vals: seq<Option<real>>, r: Series)
    requires ListsDays(m, lo, vals) && FilledBy(vals, r, lo)
    requires m.Keys == Interval(lo, hi) && |vals| == hi - lo + 1 && r.Keys == m.Keys
    ensures forall p, d :: AfterLastObserved(m, p, d) ==> r[d] == m[p]
  {
    forall p, d | AfterLastObserved(m, p, d)
      ensures r[d] == m[p]
    {
      TrailingValue(m, lo, vals, r, p, d, d - lo);
    }
  }

  /** On a materialised series whose first day is observed, linear
      interpolation leaves at each day the value `Filled` gives for it. */
  lemma {:induction false} IntervalFilled(m: Series, lo: Date, hi: Date)
    requires lo <= hi && m.Keys == Interval(lo, hi) && m[lo].Some?
    ensures LinearInterpolation(m).Success?
    ensures LinearInterpolation(m).value.Keys == m.Keys
    ensures ListsDays(m, lo, Column(m, SortedKeys(m.Keys)))
    ensures FilledBy(Column(m, SortedKeys(m.Keys)), LinearInterpolation(m).value, lo)
    ensures |Column(m, SortedKeys(m.Keys))| == hi - lo + 1
  {
    IntervalKeys(m, lo, hi);
    LinearFillsDays(m, lo);
    IntervalColumn(m, lo, hi);
  }

  /** Linear interpolation on a materialised series (keys are every day
      from `lo` to `hi`) whose first day is observed: each gap gets the
      distance-weighted average of its nearest earlier and later
      observations, entry counts being day counts here; days after the last
      observation get that observation's rate (the formula collapses
      because the descending pass carries the ascending pass's final
      state). */
  lemma {:induction false} LinearInterpolationOnInterval(m: Series, lo: Date, hi: Date)
    requires lo <= hi && m.Keys == Interval(lo, hi) && m[lo].Some?
    ensures LinearInterpolation(m).Success?
    ensures LinearInterpolation(m).value.Keys == m.Keys
    ensures forall p, d, q :: Gap(m, p, d, q) ==>
              LinearInterpolation(m).value[d] == Some(Weighted(m[p].value, d - p, m[q].value, q - d))
    ensures forall p, d :: AfterLastObserved(m, p, d) ==> LinearInterpolation(m).value[d] == m[p]
  {
    IntervalFilled(m, lo, hi);
    GapsFilled(m, lo, hi, Column(m, SortedKeys(m.Keys)), LinearInterpolation(m).value);
    TrailingFilled(m, lo, hi, Column(m, SortedKeys(m.Keys)), LinearInterpolation(m).value);
  }
}
