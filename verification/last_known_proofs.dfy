/** What `_use_last_known` computes: each gap takes the nearest observed
    rate before it, observed entries are never touched, and the pass fails
    exactly when a series starts with a gap. */
module LastKnownProofs {
  import opened Wrappers
  import opened Dates
  import opened Rates
  import opened GapFill
  import opened GapFillProofs

  /** The value the last-known fill leaves at entry `k`: the nearest
      observation at or before it. */
  function Carried(vals: seq<Option<real>>, k: nat): (v: Option<real>)
    requires k < |vals| && vals[0].Some?
    ensures v.Some?
  {
    vals[PrevObserved(vals, k).value]
  }

  /** `Carried` at every entry, in traversal order. */
  function CarriedColumn(vals: seq<Option<real>>): (r: seq<Option<real>>)
    requires 0 < |vals| && vals[0].Some?
    ensures |r| == |vals|
    ensures forall k :: 0 <= k < |vals| ==> r[k] == Carried(vals, k)
  {
    CarriedPrefix(vals, |vals|)
  }

  /** `Carried` at the first `n` entries. */
  function CarriedPrefix(vals: seq<Option<real>>, n: nat): (r: seq<Option<real>>)
    requires n <= |vals| && 0 < |vals| && vals[0].Some?
    ensures |r| == n
    ensures forall k :: 0 <= k < n ==> r[k] == Carried(vals, k)
  {
    if n == 0 then [] else CarriedPrefix(vals, n - 1) + [Carried(vals, n - 1)]
  }

  /** A gap carries the value its predecessor carries. */
  lemma {:induction false} CarriedAcrossGap(vals: seq<Option<real>>, k: nat)
    requires 0 < k < |vals| && vals[0].Some? && vals[k].None?
    ensures Carried(vals, k) == Carried(vals, k - 1)
  {
  }

  /** When the first entry is observed, after `i` iterations the table
      holds the carried values for the first `i` entries and the original
      ones for the rest, and `last_rate` is the value carried at entry
      `i - 1`. */
  lemma {:induction false} LastKnownPassCarries(rates: Series, order: seq<Date>, i: nat)
    requires i <= |order| && NoRepeats(order)
    requires forall k :: 0 <= k < |order| ==> order[k] in rates
    requires 0 < |order| && rates[order[0]].Some?
    ensures LastKnownPass(rates, order, i).Success?
    ensures LastKnownPass(rates, order, i).value.last
              == if i == 0 then None else Carried(Column(rates, order), i - 1)
    ensures Agrees(LastKnownPass(rates, order, i).value.table, rates, order, CarriedColumn(Column(rates, order)), i)
  {
    LastKnownInvariant(rates, order, i);
  }

  /** The induction behind `LastKnownPassCarries`, on the invariant as one
      predicate. */
  lemma {:induction false} LastKnownInvariant(rates: Series, order: seq<Date>, i: nat)
    requires i <= |order| && NoRepeats(order)
    requires forall k :: 0 <= k < |order| ==> order[k] in rates
    requires 0 < |order| && rates[order[0]].Some?
    ensures CarriesTo(rates, order, i)
  {
    if i == 0 {
      LastKnownStart(rates, order);
    } else {
      LastKnownInvariant(rates, order, i - 1);
      LastKnownStep(rates, order, i);
    }
  }

  /** Before the first iteration nothing is carried and the table is the
      series itself. */
  lemma {:induction false} LastKnownStart(rates: Series, order: seq<Date>)
    requires forall k :: 0 <= k < |order| ==> order[k] in rates
    requires 0 < |order| && rates[order[0]].Some?
    ensures LastKnownPass(rates, order, 0) == Success(Carry(rates, None))
    ensures Agrees(rates, rates, order, CarriedColumn(Column(rates, order)), 0)
  {
  }

  /** The invariant of `LastKnownPassCarries` after `i` iterations. */
  predicate CarriesTo(rates: Series, order: seq<Date>, i: nat)
    requires i <= |order|
    requires forall k :: 0 <= k < |order| ==> order[k] in rates
    requires 0 < |order| && rates[order[0]].Some?
  {
    && LastKnownPass(rates, order, i).Success?
    && LastKnownPass(rates, order, i).value.last == (if i == 0 then None else Carried(Column(rates, order), i - 1))
    && Agrees(LastKnownPass(rates, order, i).value.table, rates, order, CarriedColumn(Column(rates, order)), i)
  }

  /** Iteration `i` of the last-known pass keeps the invariant of
      `LastKnownPassCarries`. */
  lemma {:induction false} LastKnownStep(rates: Series, order: seq<Date>, i: nat)
    requires 0 < i <= |order| && NoRepeats(order)
    requires forall j :: 0 <= j < |order| ==> order[j] in rates
    requires 0 < |order| && rates[order[0]].Some?
    requires CarriesTo(rates, order, i - 1)
    ensures CarriesTo(rates, order, i)
  {
    var k := i - 1;
    var target := CarriedColumn(Column(rates, order));
    var c := LastKnownPass(rates, order, k).value;
    var vals := Column(rates, order);
    var d := order[k];
    assert vals[k] == rates[d];
    assert c.table[d] == rates[d];
    ExtendAgreement(rates, order, target, c.table, k);
    if vals[k].Some? {
      assert target[k] == vals[k];
      assert c.table[d := target[k]] == c.table;
      assert LastKnownPass(rates, order, i) == Success(Carry(c.table, vals[k]));
    } else {
      CarriedAcrossGap(vals, k);
      assert c.last == target[k];
      assert LastKnownPass(rates, order, i) == Success(Carry(c.table[d := c.last], c.last));
    }
  }



  /** A pass whose first entry is a gap fails on it. */
  lemma {:induction false} LastKnownPassCrash(rates: Series, order: seq<Date>, i: nat)
    requires 0 < i <= |order|
    requires forall k :: 0 <= k < |order| ==> order[k] in rates
    requires rates[order[0]].None?
    ensures LastKnownPass(rates, order, i) == Failure(UnboundLocal)
  {
    if i > 1 {
      LastKnownPassCrash(rates, order, i - 1);
    }
  }

  /** The pass over the sorted keys fills every entry. */
  lemma {:induction false} SortedLastKnownCarries(rates: Series, order: seq<Date>)
    requires order == SortedKeys(rates.Keys)
    requires 0 < |order| && rates[order[0]].Some?
    ensures LastKnownPass(rates, order, |order|).Success?
    ensures Agrees(LastKnownPass(rates, order, |order|).value.table, rates, order,
                   CarriedColumn(Column(rates, order)), |order|)
  {
    SortedKeysNoRepeats(rates.Keys);
    LastKnownPassCarries(rates, order, |order|);
  }

  /** Last-known filling of a series whose first entry is observed: it
      succeeds, keeps the keys and leaves every entry as `Carried` says. */
  lemma {:induction false} LastKnownFills(rates: Series, order: seq<Date>)
    requires order == SortedKeys(rates.Keys)
    requires 0 < |order| && rates[order[0]].Some?
    ensures LastKnown(rates).Success?
    ensures LastKnown(rates).value.Keys == rates.Keys
    ensures forall k :: 0 <= k < |order| ==> order[k] in LastKnown(rates).value
    ensures forall k {:trigger LastKnown(rates).value[order[k]]} :: 0 <= k < |order| ==>
              LastKnown(rates).value[order[k]] == Carried(Column(rates, order), k)
  {
    SortedLastKnownCarries(rates, order);
  }

  /** Last-known filling fails, with UnboundLocalError, exactly when the
      series starts with a gap. */
  lemma {:induction false} LastKnownFails(rates: Series)
    ensures LastKnown(rates).Failure? <==> rates != map[] && rates[SetMin(rates.Keys)].None?
    ensures LastKnown(rates).Failure? ==> LastKnown(rates).error == UnboundLocal
  {
    var order := SortedKeys(rates.Keys);
    if rates != map[] {
      SortedKeysHead(rates.Keys);
      if rates[order[0]].None? {
        LastKnownPassCrash(rates, order, |order|);
      } else {
        LastKnownFills(rates, order);
      }
    } else {
      assert order == [];
    }
  }

  /** Once the first entry is observed, last-known filling leaves observed
      entries as they were and no gap behind. */
  lemma {:induction false} LastKnownKeepsObserved(rates: Series, order: seq<Date>)
    requires order == SortedKeys(rates.Keys)
    requires 0 < |order| && rates[order[0]].Some?
    ensures LastKnown(rates).Success?
    ensures LastKnown(rates).value.Keys == rates.Keys
    ensures forall d :: d in rates && rates[d].Some? ==> LastKnown(rates).value[d] == rates[d]
    ensures forall d :: d in rates ==> LastKnown(rates).value[d].Some?
  {
    LastKnownFills(rates, order);
    var vals := Column(rates, order);
    var r := LastKnown(rates).value;
    forall d | d in rates
      ensures r[d].Some? && (rates[d].Some? ==> r[d] == rates[d])
    {
      var k :| 0 <= k < |order| && order[k] == d;
      assert r[order[k]] == Carried(vals, k);
    }
  }

  // ---------------------------------------------------------------------
  // On a materialised series

  /** `r` holds, at day `lo + j`, the value carried to entry `j`. */
  predicate CarriedBy(vals: seq<Option<real>>, r: Series, lo: Date) {
    && 0 < |vals| && vals[0].Some?
    && forall j :: 0 <= j < |vals| ==> HoldsOn(r, lo + j, Carried(vals, j))
  }

  /** Values listed by position in `order`, whose `k`-th entry is day
      `lo + k`, are the values of those days. */
  lemma {:induction false} CarriedReindex(order: seq<Date>, r: Series, vals: seq<Option<real>>, lo: Date)
    requires |vals| == |order| && 0 < |vals| && vals[0].Some?
    requires forall k :: 0 <= k < |order| ==> order[k] == lo + k
    requires forall k :: 0 <= k < |order| ==> order[k] in r
    requires forall k {:trigger r[order[k]]} :: 0 <= k < |order| ==> r[order[k]] == Carried(vals, k)
    ensures CarriedBy(vals, r, lo)
  {
    forall j | 0 <= j < |vals|
      ensures HoldsOn(r, lo + j, Carried(vals, j))
    {
      assert order[j] == lo + j;
      assert r[order[j]] == Carried(vals, j);
    }
  }

  /** On a materialised series whose first day is observed, last-known
      filling leaves at each day the value `Carried` gives for it. */
  lemma {:induction false} IntervalCarried(m: Series, lo: Date, hi: Date)
    requires lo <= hi && m.Keys == Interval(lo, hi) && m[lo].Some?
    ensures LastKnown(m).Success?
    ensures LastKnown(m).value.Keys == m.Keys
    ensures ListsDays(m, lo, Column(m, SortedKeys(m.Keys)))
    ensures CarriedBy(Column(m, SortedKeys(m.Keys)), LastKnown(m).value, lo)
    ensures |Column(m, SortedKeys(m.Keys))| == hi - lo + 1
  {
    IntervalKeys(m, lo, hi);
    LastKnownFills(m, SortedKeys(m.Keys));
    CarriedReindex(SortedKeys(m.Keys), LastKnown(m).value, Column(m, SortedKeys(m.Keys)), lo);
    IntervalColumn(m, lo, hi);
  }

  /** The carried value at a day whose last observation is `p`. */
  lemma {:induction false} CarriedValue(m: Series, lo: Date, vals: seq<Option<real>>, r: Series, p: Date, d: Date, k: nat)
    requires 0 < |vals| && vals[0].Some?
    requires ListsDays(m, lo, vals)
    requires LastObservedAt(m, p, d) && lo <= p
    requires d == lo + k && k < |vals|
    requires d in r && r[d] == Carried(vals, k)
    ensures r[d] == m[p]
  {
    forall j | p - lo < j <= k
      ensures vals[j].None?
    {
      var v := vals[j];
      assert lo + j in m && v == m[lo + j];
    }
    assert vals[p - lo] == m[p];
    PrevObservedIs(vals, k, p - lo);
  }

  /** Days of a column carried into `r` get their last observation. */
  lemma {:induction false} LastObservedCarried(m: Series, lo: Date, hi: Date, vals: seq<Option<real>>, r: Series)
    requires ListsDays(m, lo, vals) && CarriedBy(vals, r, lo)
    requires m.Keys == Interval(lo, hi) && |vals| == hi - lo + 1 && r.Keys == m.Keys
    ensures forall p, d :: LastObservedAt(m, p, d) ==> r[d] == m[p]
  {
    forall p, d | LastObservedAt(m, p, d)
      ensures r[d] == m[p]
    {
      CarriedValue(m, lo, vals, r, p, d, d - lo);
    }
  }

  /** Last-known filling on a materialised series whose first day is
      observed: every day gets the rate of the nearest observed day at or
      before it. */
  lemma {:induction false} LastKnownOnInterval(m: Series, lo: Date, hi: Date)
    requires lo <= hi && m.Keys == Interval(lo, hi) && m[lo].Some?
    ensures LastKnown(m).Success?
    ensures LastKnown(m).value.Keys == m.Keys
    ensures forall p, d :: LastObservedAt(m, p, d) ==> LastKnown(m).value[d] == m[p]
  {
    IntervalCarried(m, lo, hi);
    LastObservedCarried(m, lo, hi, Column(m, SortedKeys(m.Keys)), LastKnown(m).value);
  }
}
